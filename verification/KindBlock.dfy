/** One kind's row storage (analyze/count.c's KindBlock): dense arrays for bytes and byte pairs, the sparse
    table for code points. */
module KindBlock {
  import opened Bits
  import opened Rows
  import opened CpTable

  datatype Kind = Freq | Cpfreq | Bigram

  /** The non-zero cells of a dense array. */
  ghost function CellRows(cells: seq<u64>): Rows {
    map i: nat | i < |cells| && cells[i] != 0 :: cells[i]
  }

  lemma CellGet(cells: seq<u64>, k: nat)
    ensures Get(CellRows(cells), k) == if k < |cells| then cells[k] else 0
  {
  }

  lemma CellAdd(cells: seq<u64>, k: nat, c: u64)
    requires k < |cells|
    ensures CellRows(cells[k := Plus(cells[k], c)]) == Add(CellRows(cells), k, c)
  {
    hide CellRows, Add, Get, Plus;
    var cells' := cells[k := Plus(cells[k], c)];
    forall j: nat
      ensures Get(CellRows(cells'), j) == Get(Add(CellRows(cells), k, c), j)
    {
      CellGet(cells, j);
      CellGet(cells, k);
      CellGet(cells', j);
      AddGet(CellRows(cells), k, c, j);
    }
    Extensional(CellRows(cells'), Add(CellRows(cells), k, c));
  }

  lemma CellMerge(a: seq<u64>, b: seq<u64>, sum: seq<u64>)
    requires |a| == |b| == |sum| && forall i :: 0 <= i < |a| ==> sum[i] == Plus(a[i], b[i])
    ensures CellRows(sum) == Merge(CellRows(a), CellRows(b))
  {
    hide CellRows, Merge, Get, Plus;
    forall j: nat
      ensures Get(CellRows(sum), j) == Get(Merge(CellRows(a), CellRows(b)), j)
    {
      CellGet(a, j);
      CellGet(b, j);
      CellGet(sum, j);
      MergeGet(CellRows(a), CellRows(b), j);
      PlusZero();
    }
    Extensional(CellRows(sum), Merge(CellRows(a), CellRows(b)));
  }

  lemma PlusZero()
    ensures Plus(0, 0) == 0
  {
  }

  lemma CellsEqual(a: seq<u64>, b: seq<u64>)
    requires |a| == |b|
    ensures CellRows(a) == CellRows(b) <==> a == b
  {
    hide CellRows, Get;
    if CellRows(a) == CellRows(b) {
      forall k: nat | k < |a|
        ensures a[k] == b[k]
      {
        CellGet(a, k);
        CellGet(b, k);
      }
    }
  }

  lemma NoCells(cells: seq<u64>)
    requires forall i :: 0 <= i < |cells| ==> cells[i] == 0
    ensures CellRows(cells) == map[]
  {
  }

  /** The cells of a bigram array that may not have been allocated yet. */
  ghost function PairCells(b: array?<u64>): (r: seq<u64>)
    reads b
    ensures b == null ==> |r| == 65536 && forall i :: 0 <= i < |r| ==> r[i] == 0
  {
    if b == null then seq(65536, _ => 0) else b[..]
  }

  lemma NothingCounted()
    ensures CellRows(PairCells(null)) == map[] && Denoted(map[]) == map[]
  {
    NoCells(PairCells(null));
  }

  method ZeroCells(n: nat) returns (a: array<u64>)
    ensures fresh(a) && a.Length == n && forall i :: 0 <= i < n ==> a[i] == 0
  {
    a := new u64[n](_ => 0);
  }

  class Block {
    const kind: Kind
    var present: bool
    const freq: array<u64>
    var bigram: array?<u64>
    const cp: Table

    ghost function Repr(): set<object>
      reads this, cp
    {
      {this, freq, cp, cp.keys, cp.counts} + if bigram == null then {} else {bigram as object}
    }

    ghost predicate Valid()
      reads this, cp, freq, bigram, cp.keys, cp.counts
    {
      && freq.Length == 256 && (bigram != null ==> bigram.Length == 65536)
      && freq != bigram && freq != cp.counts && bigram != cp.counts
      && freq as object != cp.keys && bigram as object? != cp.keys
      && cp.Valid()
    }

    ghost function Rows(): Rows
      requires Valid()
      reads this, cp, freq, bigram, cp.keys, cp.counts
    {
      match kind
      case Freq => CellRows(freq[..])
      case Bigram => CellRows(PairCells(bigram))
      case Cpfreq => Denoted(cp.entries)
    }

    constructor (k: Kind)
      ensures Valid() && kind == k && !present && Rows() == map[]
      ensures fresh(freq) && fresh(cp) && fresh(cp.keys) && fresh(cp.counts) && bigram == null
    {
      hide CellRows, PairCells, Denoted, Table.Valid;
      NothingCounted();
      var f := ZeroCells(256);
      var t := new Table();
      kind, present, bigram, freq, cp := k, false, null, f, t;
      new;
      NoCells(freq[..]);
    }

    method AddFreq(b: byte, count: u64)
      requires Valid() && kind == Freq
      modifies freq
      ensures Valid() && Rows() == Add(old(Rows()), b, count)
    {
      hide CellRows, Add, Plus;
      CellAdd(freq[..], b, count);
      ghost var cells := freq[..];
      freq[b] := Plus(freq[b], count);
      assert freq[..] == cells[b := Plus(cells[b], count)];
    }

    method AddBigram(a: byte, b: byte, count: u64)
      requires Valid() && kind == Bigram
      modifies this`bigram, bigram
      ensures Valid() && fresh(Repr() - old(Repr()))
      ensures Rows() == Add(old(Rows()), a * 256 + b, count)
    {
      hide CellRows, Add, Plus;
      ghost var cells := PairCells(bigram);
      var k: nat := a as int * 256 + b as int;
      CellAdd(cells, k, count);
      if bigram == null { bigram := ZeroCells(65536); }
      bigram[k] := Plus(bigram[k], count);
      assert PairCells(bigram) == cells[k := Plus(cells[k], count)];
    }

    method AddCp(c: Key, count: u64)
      requires Valid() && kind == Cpfreq
      modifies cp, cp.keys, cp.counts
      ensures Valid() && fresh(Repr() - old(Repr()))
      ensures Rows() == Add(old(Rows()), c, count)
    {
      hide Denoted, Add, Plus;
      DenotedAdd(cp.entries, c, count);
      cp.Add(c, count);
    }

    /** Sums another block's rows into this one. */
    method MergeFrom(src: Block)
      requires Valid() && src.Valid() && kind == src.kind && Repr() !! src.Repr()
      modifies Repr()
      ensures Valid() && present && fresh(Repr() - old(Repr()))
      ensures Rows() == Merge(old(Rows()), src.Rows())
    {
      hide Table.Valid, Merge, Denoted, CellRows, PairCells;
      present := true;
      match src.kind {
        case Freq => MergeFreq(src);
        case Bigram => MergeBigram(src);
        case Cpfreq => MergeCp(src);
      }
    }

    method MergeFreq(src: Block)
      requires Valid() && src.Valid() && kind == src.kind == Freq && Repr() !! src.Repr()
      modifies freq
      ensures Valid() && Rows() == Merge(old(Rows()), src.Rows())
    {
      hide CellRows, Merge, Plus, Table.Valid;
      ghost var mine, other := freq[..], src.freq[..];
      var f, s := freq, src.freq;
      for i := 0 to 256
        invariant s[..] == other
        invariant forall j :: i <= j < 256 ==> f[j] == mine[j]
        invariant forall j :: 0 <= j < i ==> f[j] == Plus(mine[j], other[j])
      {
        f[i] := Plus(f[i], s[i]);
      }
      CellMerge(mine, other, freq[..]);
    }

    method MergeBigram(src: Block)
      requires Valid() && src.Valid() && kind == src.kind == Bigram && Repr() !! src.Repr()
      modifies this`bigram, bigram
      ensures Valid() && fresh(Repr() - old(Repr()))
      ensures Rows() == Merge(old(Rows()), src.Rows())
    {
      hide CellRows, Merge, Plus, Table.Valid;
      ghost var mine, other := PairCells(bigram), PairCells(src.bigram);
      if src.bigram != null {
        if bigram == null { bigram := ZeroCells(65536); }
        assert bigram[..] == mine;
        var b, s := bigram, src.bigram;
        for i := 0 to 65536
          modifies b
          invariant forall j :: i <= j < 65536 ==> b[j] == mine[j]
          invariant forall j :: 0 <= j < i ==> b[j] == Plus(mine[j], s[j])
        {
          b[i] := Plus(b[i], s[i]);
        }
        CellMerge(mine, other, bigram[..]);
      } else {
        NoCells(other);
        MergeUnit(CellRows(mine));
      }
    }

    method MergeCp(src: Block)
      requires Valid() && src.Valid() && kind == src.kind == Cpfreq && Repr() !! src.Repr()
      modifies cp, cp.keys, cp.counts
      ensures Valid() && fresh(Repr() - old(Repr()))
      ensures Rows() == Merge(old(Rows()), src.Rows())
    {
      hide Table.Valid, Merge, Denoted;
      cp.AddAll(src.cp);
    }

    /** Whether two blocks of one kind hold the same rows. */
    static method RowsEqual(a: Block, b: Block) returns (eq: bool)
      requires a.Valid() && b.Valid()
      ensures eq <==> a.kind == b.kind && a.Rows() == b.Rows()
    {
      hide CellRows, Denoted, Lists, Ascending, Table.Valid;
      if a.kind != b.kind { return false; }
      match a.kind {
        case Freq =>
          CellsEqual(a.freq[..], b.freq[..]);
          for i := 0 to 256
            invariant forall j :: 0 <= j < i ==> a.freq[j] == b.freq[j]
          {
            if a.freq[i] != b.freq[i] { return false; }
          }
          return true;
        case Bigram =>
          ghost var av, bv := PairCells(a.bigram), PairCells(b.bigram);
          CellsEqual(av, bv);
          for i := 0 to 65536
            invariant forall j :: 0 <= j < i ==> av[j] == bv[j]
          {
            var x := if a.bigram != null then a.bigram[i] else 0;
            var y := if b.bigram != null then b.bigram[i] else 0;
            assert x == av[i] && y == bv[i];
            if x != y { return false; }
          }
          return true;
        case Cpfreq =>
          var ra := a.cp.Sorted();
          var rb := b.cp.Sorted();
          ListingUnique(ra, Denoted(a.cp.entries), rb, Denoted(b.cp.entries));
          if |ra| != |rb| { return false; }
          for i := 0 to |ra|
            invariant forall j :: 0 <= j < i ==> ra[j] == rb[j]
          {
            if ra[i].key != rb[i].key || ra[i].count != rb[i].count { return false; }
          }
          return true;
      }
    }
  }
}
