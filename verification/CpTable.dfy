/** The open-addressing table of code-point counts (analyze/count.c). */
module CpTable {
  import opened Bits
  import opened Rows

  const EMPTY: u32 := 0xFFFF_FFFF

  type Key = k: u32 | k != EMPTY

  /** Knuth's multiplicative hash, masked to the capacity. */
  function Hash(cp: u32, cap: nat): (h: nat)
    requires cap > 0
    ensures h < cap
  {
    AndAtMost(cp * 2654435761, cap - 1);
    And(cp * 2654435761, cap - 1)
  }

  lemma {:induction false} AndAtMost(a: nat, b: nat)
    ensures And(a, b) <= b
    decreases a
  {
    if a > 0 { AndAtMost(a / 2, b / 2); }
  }

  /** The slot probed after `idx`. */
  function Next(idx: nat, cap: nat): nat
    requires cap > 0
  {
    And(idx + 1, cap - 1)
  }

  lemma NextWraps(idx: nat, log: nat, cap: nat)
    requires cap == Pow2(log) && idx < cap
    ensures Next(idx, cap) == if idx + 1 == cap then 0 else idx + 1
  {
    MaskIsMod(idx + 1, log, cap);
    ModUnique(idx + 1, cap, if idx + 1 == cap then 1 else 0, if idx + 1 == cap then 0 else idx + 1);
  }

  // ----- what the two arrays denote -----

  /** Slot `j` is probed before slot `p` by a search that starts at `h`. */
  ghost predicate Before(h: nat, j: nat, p: nat) {
    if h <= p then h <= j < p else h <= j || j < p
  }

  /** No empty slot is probed on the way from `h` to `p`. */
  ghost predicate Chain(ks: seq<u32>, h: nat, p: nat) {
    forall j: nat :: j < |ks| && Before(h, j, p) ==> ks[j] != EMPTY
  }

  /** The arrays hold exactly the entries of `m`, key `k` at slot `pos[k]` and nowhere else, and a search for
      it from its hash slot meets no empty slot on the way. */
  ghost predicate Rep(ks: seq<u32>, cs: seq<u64>, m: map<Key, u64>, pos: map<Key, nat>) {
    && |ks| == |cs| && m.Keys == pos.Keys
    && (forall i :: 0 <= i < |ks| && ks[i] != EMPTY ==> ks[i] in m && pos[ks[i]] == i && cs[i] == m[ks[i]])
    && (forall k :: k in m ==> pos[k] < |ks| && ks[pos[k]] == k)
    && (forall k :: k in m ==> Chain(ks, Hash(k, |ks|), pos[k]))
  }

  lemma RepFacts(ks: seq<u32>, cs: seq<u64>, m: map<Key, u64>, pos: map<Key, nat>)
    requires Rep(ks, cs, m, pos)
    ensures |ks| == |cs| && m.Keys == pos.Keys
    ensures forall i :: 0 <= i < |ks| && ks[i] != EMPTY ==> ks[i] in m && cs[i] == m[ks[i]]
  {
  }

  /** A key written into the first empty slot of its probe sequence. */
  lemma RepInsert(ks: seq<u32>, cs: seq<u64>, m: map<Key, u64>, pos: map<Key, nat>, k: Key, c: u64, i: nat)
    requires Rep(ks, cs, m, pos) && k !in m && i < |ks| && ks[i] == EMPTY && Chain(ks, Hash(k, |ks|), i)
    ensures Rep(ks[i := k], cs[i := c], m[k := c], pos[k := i])
  {
    hide Hash;
    var ks', m', pos' := ks[i := k], m[k := c], pos[k := i];
    forall k' | k' in m'
      ensures Chain(ks', Hash(k', |ks'|), pos'[k'])
    {
      assert k' != k ==> Chain(ks, Hash(k', |ks|), pos[k']);
    }
  }

  lemma RepUpdate(ks: seq<u32>, cs: seq<u64>, m: map<Key, u64>, pos: map<Key, nat>, c: u64, i: nat)
    requires Rep(ks, cs, m, pos) && i < |ks| && ks[i] != EMPTY
    ensures Rep(ks, cs[i := c], m[ks[i] := c], pos)
  {
    hide Hash;
    var m' := m[ks[i] := c];
    assert m'.Keys == m.Keys;
    forall j | 0 <= j < |ks| && ks[j] != EMPTY
      ensures ks[j] in m' && pos[ks[j]] == j && cs[i := c][j] == m'[ks[j]]
    {
    }
  }

  /** A probe that meets an empty slot before the key has shown that the key is absent. */
  lemma ProbeMiss(ks: seq<u32>, cs: seq<u64>, m: map<Key, u64>, pos: map<Key, nat>, k: Key, i: nat)
    requires Rep(ks, cs, m, pos) && i < |ks| && ks[i] == EMPTY
    requires Chain(ks, Hash(k, |ks|), i)
    requires forall j: nat :: j < |ks| && Before(Hash(k, |ks|), j, i) ==> ks[j] != k
    ensures k !in m
  {
  }

  /** Fewer keys than slots leave an empty slot, so every probe ends. */
  lemma EmptySlot(ks: seq<u32>, cs: seq<u64>, m: map<Key, u64>, pos: map<Key, nat>)
    requires Rep(ks, cs, m, pos) && |m| < |ks|
    ensures exists i :: 0 <= i < |ks| && ks[i] == EMPTY
  {
    hide Hash, Chain;
    if forall i :: 0 <= i < |ks| ==> ks[i] != EMPTY {
      Pigeonhole(ks, m.Keys);
    }
  }

  lemma {:induction false} Pigeonhole<T>(s: seq<T>, held: set<T>)
    requires forall i :: 0 <= i < |s| ==> s[i] in held
    requires forall i, j :: 0 <= i < j < |s| ==> s[i] != s[j]
    ensures |s| <= |held|
    decreases |s|
  {
    if s != [] {
      var n := |s| - 1;
      Pigeonhole(s[..n], held - {s[n]});
    }
  }

  lemma ChainStart(ks: seq<u32>, h: nat)
    requires h < |ks|
    ensures Chain(ks, h, h) && Dist(h, h, |ks|) == 0
    ensures forall j: nat :: !Before(h, j, h)
  {
  }

  /** One more step round the table never skips an empty slot. */
  lemma StepKeepsSearch(ks: seq<u32>, h: nat, i: nat, i': nat, e: nat)
    requires h < |ks| && i < |ks| && e < |ks| && ks[e] == EMPTY && ks[i] != EMPTY
    requires Chain(ks, h, i)
    requires i' == if i + 1 == |ks| then 0 else i + 1
    ensures Chain(ks, h, i') && Dist(h, i', |ks|) == Dist(h, i, |ks|) + 1
    ensures forall j: nat :: j < |ks| ==> (Before(h, j, i') <==> Before(h, j, i) || j == i)
  {
    assert !Before(h, e, i);
  }

  /** How many slots a search from `h` has passed when it reaches `i`. */
  ghost function Dist(h: nat, i: nat, cap: nat): int {
    if h <= i then i - h else cap - h + i
  }

  lemma DistInRange(h: nat, i: nat, cap: nat)
    requires h < cap && i < cap
    ensures 0 <= Dist(h, i, cap) < cap
  {
  }

  /** The non-zero rows of the table's entries. */
  function Denoted(m: map<Key, u64>): Rows {
    map k: nat | k in m.Keys && m[k] != 0 :: m[k]
  }

  lemma DenotedGet(m: map<Key, u64>, k: nat)
    ensures Get(Denoted(m), k) == if k < EMPTY && k in m then m[k] else 0
  {
  }

  lemma DenotedAdd(m: map<Key, u64>, k: Key, c: u64)
    ensures Denoted(m[k := Plus(if k in m then m[k] else 0, c)]) == Add(Denoted(m), k, c)
  {
    hide Denoted, Add, Get, Plus;
    var m' := m[k := Plus(if k in m then m[k] else 0, c)];
    forall j: nat
      ensures Get(Denoted(m'), j) == Get(Add(Denoted(m), k, c), j)
    {
      DenotedGet(m, j);
      DenotedGet(m, k);
      DenotedGet(m', j);
      AddGet(Denoted(m), k, c, j);
    }
    Extensional(Denoted(m'), Add(Denoted(m), k, c));
  }

  /** `part` holds the entries whose slot is below `i`. */
  ghost predicate Copied(all: map<Key, u64>, slot: map<Key, nat>, part: map<Key, u64>, i: nat) {
    && part.Keys <= all.Keys
    && (forall k :: k in all ==> k in slot && (k in part <==> slot[k] < i))
    && (forall k :: k in part ==> part[k] == all[k])
  }

  lemma CopyStep(ks: seq<u32>, cs: seq<u64>, all: map<Key, u64>, slot: map<Key, nat>, part: map<Key, u64>, i: nat)
    requires Rep(ks, cs, all, slot) && i < |ks| && Copied(all, slot, part, i)
    ensures |ks| == |cs| && if ks[i] == EMPTY then Copied(all, slot, part, i + 1)
      else ks[i] !in part && Copied(all, slot, part[ks[i] := cs[i]], i + 1)
  {
    hide Chain, Hash;
    if ks[i] == EMPTY {
      assert forall k :: k in all ==> slot[k] != i;
    }
  }

  lemma CopiedKeys(all: map<Key, u64>, slot: map<Key, nat>, part: map<Key, u64>, i: nat)
    requires Copied(all, slot, part, i)
    ensures part.Keys <= all.Keys
  {
  }

  /** What was copied so far leaves room in a larger table. */
  lemma CopyRoom(all: map<Key, u64>, slot: map<Key, nat>, part: map<Key, u64>, i: nat, cap: nat, newcap: nat)
    requires Copied(all, slot, part, i) && 2 * |all| <= cap < newcap
    ensures |part| < newcap
  {
    Fits(part, all, cap, newcap);
  }

  lemma StartCopy(ks: seq<u32>, cs: seq<u64>, all: map<Key, u64>, slot: map<Key, nat>)
    requires |ks| == |cs| && all.Keys == slot.Keys && forall i :: 0 <= i < |ks| ==> ks[i] == EMPTY
    ensures Rep(ks, cs, map[], map[]) && Copied(all, slot, map[], 0)
  {
  }

  lemma CopyDone(ks: seq<u32>, cs: seq<u64>, all: map<Key, u64>, slot: map<Key, nat>, part: map<Key, u64>)
    requires Rep(ks, cs, all, slot) && Copied(all, slot, part, |ks|)
    ensures part == all
  {
    hide Chain, Hash;
  }

  lemma DoubleCap(log: nat, cap: nat)
    ensures Pow2(6) == 64
    ensures cap == Pow2(log) ==> cap * 2 == Pow2(log + 1)
  {
    assert Pow2(3) == 8;
  }

  /** The rehash's probe: the first empty slot from a key's hash slot on. */
  method FreeSlot(ks: array<u32>, cp: u32, ghost log: nat) returns (idx: nat)
    requires ks.Length == Pow2(log) && exists i :: 0 <= i < ks.Length && ks[i] == EMPTY
    ensures idx < ks.Length && ks[idx] == EMPTY && Chain(ks[..], Hash(cp, ks.Length), idx)
  {
    var cap := ks.Length;
    ghost var e :| 0 <= e < cap && ks[e] == EMPTY;
    ghost var h := Hash(cp, cap);
    idx := Hash(cp, cap);
    while ks[idx] != EMPTY
      invariant idx < cap && Chain(ks[..], h, idx)
      decreases cap - Dist(h, idx, cap)
    {
      NextWraps(idx, log, cap);
      StepKeepsSearch(ks[..], h, idx, Next(idx, cap), e);
      DistInRange(h, Next(idx, cap), cap);
      idx := Next(idx, cap);
    }
  }

  class Table {
    var keys: array<u32>
    var counts: array<u64>
    var cap: nat
    var used: nat
    ghost var entries: map<Key, u64>
    ghost var slot: map<Key, nat>
    ghost var log: nat

    ghost predicate Valid()
      reads this, keys, counts
    {
      && keys.Length == counts.Length == cap && keys as object != counts as object
      && (cap > 0 ==> log > 0 && cap == Pow2(log))
      && used == |entries| && 2 * used <= cap
      && Rep(keys[..], counts[..], entries, slot)
    }

    ghost function Rows(): Rows
      reads this
    {
      Denoted(entries)
    }

    constructor ()
      ensures Valid() && fresh(keys) && fresh(counts) && cap == 0 && entries == map[]
    {
      keys := new u32[0];
      counts := new u64[0];
      cap, used := 0, 0;
      entries, slot, log := map[], map[], 0;
    }

    method Grow()
      requires Valid()
      modifies this
      ensures Valid() && fresh(keys) && fresh(counts)
      ensures entries == old(entries) && cap == (if old(cap) == 0 then 64 else 2 * old(cap))
    {
      hide Rep, Pow2;
      var newcap := if cap != 0 then cap * 2 else 64;
      ghost var newlog := if cap != 0 then log + 1 else 6;
      DoubleCap(log, cap);
      var nk := new u32[newcap];
      var nc := new u64[newcap];
      for i := 0 to newcap
        modifies nk
        invariant forall j :: 0 <= j < i ==> nk[j] == EMPTY
      {
        nk[i] := EMPTY;
      }
      ghost var newSlot := Rehash(keys, counts, nk, nc, entries, slot, newlog);
      keys, counts, cap := nk, nc, newcap;
      slot, log := newSlot, newlog;
    }

    /** Copies every entry to its slot in the larger, still empty arrays. */
    static method Rehash(keys: array<u32>, counts: array<u64>, nk: array<u32>, nc: array<u64>,
                         ghost m: map<Key, u64>, ghost slot: map<Key, nat>, ghost newlog: nat)
        returns (ghost newSlot: map<Key, nat>)
      requires Rep(keys[..], counts[..], m, slot) && 2 * |m| <= keys.Length < nk.Length == nc.Length == Pow2(newlog)
      requires {keys as object, counts as object} !! {nk as object, nc as object} && nk as object != nc as object
      requires forall j :: 0 <= j < nk.Length ==> nk[j] == EMPTY
      modifies nk, nc
      ensures Rep(nk[..], nc[..], m, newSlot)
    {
      hide Rep, Copied, Pow2, Chain, Hash;
      ghost var moved: map<Key, u64> := map[];
      ghost var ks, cs := keys[..], counts[..];
      newSlot := map[];
      RepFacts(ks, cs, m, slot);
      StartCopy(nk[..], nc[..], m, slot);
      for i := 0 to keys.Length
        invariant keys[..] == ks && counts[..] == cs && Rep(nk[..], nc[..], moved, newSlot) && Copied(m, slot, moved, i)
      {
        CopyStep(ks, cs, m, slot, moved, i);
        CopyRoom(m, slot, moved, i, keys.Length, nk.Length);
        var key, count := keys[i], counts[i];
        assert key == ks[i] && count == cs[i];
        if key != EMPTY {
          newSlot := PutFresh(nk, nc, key, count, moved, newSlot, newlog);
          moved := moved[key := count];
        }
      }
      CopyDone(ks, cs, m, slot, moved);
    }

    /** Writes a key that is not there yet into its slot. */
    static method PutFresh(nk: array<u32>, nc: array<u64>, key: Key, count: u64, ghost m: map<Key, u64>,
                           ghost pos: map<Key, nat>, ghost newlog: nat) returns (ghost pos': map<Key, nat>)
      requires nk as object != nc as object && nk.Length == nc.Length == Pow2(newlog)
      requires Rep(nk[..], nc[..], m, pos) && key !in m && |m| < nk.Length
      modifies nk, nc
      ensures Rep(nk[..], nc[..], m[key := count], pos')
    {
      hide Rep, Pow2, Chain, Hash;
      ghost var ks, cs := nk[..], nc[..];
      EmptySlot(ks, cs, m, pos);
      var idx := FreeSlot(nk, key, newlog);
      RepInsert(ks, cs, m, pos, key, count, idx);
      nk[idx] := key;
      nc[idx] := count;
      assert nk[..] == ks[idx := key] && nc[..] == cs[idx := count];
      pos' := pos[key := idx];
    }

    /** Adds `count` to one key's row and leaves every other row as it was. */
    method Add(cp: Key, count: u64)
      requires Valid()
      modifies this, keys, counts
      ensures Valid()
      ensures keys == old(keys) || fresh(keys)
      ensures counts == old(counts) || fresh(counts)
      ensures entries == old(entries)[cp := Plus(if cp in old(entries) then old(entries)[cp] else 0, count)]
    {
      hide Rep, Chain, Hash, Pow2, Plus;
      if cap == 0 || used * 2 >= cap { Grow(); }
      var idx := Probe(cp);
      if keys[idx] == EMPTY { TakeSlot(cp, idx); }
      Raise(idx, count);
    }

    /** Adds to the count in an occupied slot. */
    method Raise(idx: nat, count: u64)
      requires Valid() && idx < cap && keys[idx] != EMPTY
      modifies `entries, counts
      ensures Valid() && keys[idx] in old(entries)
      ensures entries == old(entries)[keys[idx] := Plus(old(entries)[keys[idx]], count)]
    {
      hide Rep, Chain, Hash, Pow2, Plus;
      RepFacts(keys[..], counts[..], entries, slot);
      ghost var cs, sum := counts[..], Plus(counts[idx], count);
      RepUpdate(keys[..], cs, entries, slot, sum, idx);
      counts[idx] := Plus(counts[idx], count);
      assert counts[..] == cs[idx := sum];
      entries := entries[keys[idx] := sum];
    }

    /** The slot that holds `cp`, or the empty slot that shows `cp` is absent. */
    method Probe(cp: Key) returns (idx: nat)
      requires Valid() && 2 * used < cap
      ensures idx < cap
      ensures if cp in entries then keys[idx] == cp
        else keys[idx] == EMPTY && Chain(keys[..], Hash(cp, cap), idx)
    {
      hide Rep, Chain, Before, Hash, Pow2, Next, Dist;
      ghost var ks, h := keys[..], Hash(cp, cap);
      RepFacts(ks, counts[..], entries, slot);
      EmptySlot(ks, counts[..], entries, slot);
      ghost var e :| 0 <= e < cap && keys[e] == EMPTY;
      idx := Hash(cp, cap);
      ChainStart(ks, h);
      while keys[idx] != EMPTY && keys[idx] != cp
        invariant idx < cap && Chain(ks, h, idx)
        invariant forall j: nat :: j < cap && Before(h, j, idx) ==> keys[j] != cp
        decreases cap - Dist(h, idx, cap)
      {
        NextWraps(idx, log, cap);
        StepKeepsSearch(ks, h, idx, Next(idx, cap), e);
        DistInRange(h, Next(idx, cap), cap);
        idx := Next(idx, cap);
      }
      if keys[idx] == EMPTY {
        ProbeMiss(ks, counts[..], entries, slot, cp, idx);
      }
    }

    /** A new key takes the empty slot its probe ended at. */
    method TakeSlot(cp: Key, idx: nat)
      requires Valid() && 2 * used < cap && cp !in entries
      requires idx < cap && keys[idx] == EMPTY && Chain(keys[..], Hash(cp, cap), idx)
      modifies `used, `entries, `slot, keys, counts
      ensures Valid() && keys[idx] == cp && entries == old(entries)[cp := 0]
    {
      hide Rep, Chain, Hash, Pow2;
      ghost var ks, cs := keys[..], counts[..];
      RepInsert(ks, cs, entries, slot, cp, 0, idx);
      EvenCap(log, cap);
      keys[idx] := cp;
      counts[idx] := 0;
      assert keys[..] == ks[idx := cp] && counts[..] == cs[idx := 0];
      used := used + 1;
      entries, slot := entries[cp := 0], slot[cp := idx];
    }

    /** Adds every non-zero row of another table. */
    method AddAll(src: Table)
      requires Valid() && src.Valid()
      requires {this, keys, counts} !! {src, src.keys, src.counts}
      modifies this, keys, counts
      ensures Valid()
      ensures keys == old(keys) || fresh(keys)
      ensures counts == old(counts) || fresh(counts)
      ensures Denoted(entries) == Merge(old(Denoted(entries)), src.Rows())
    {
      hide Rep, Copied, Denoted, Merge, Plus, Table.Valid;
      src.ValidFacts();
      ghost var before, ks, cs, from, at := Denoted(entries), src.keys[..], src.counts[..], src.entries, src.slot;
      var n, sk, sc := src.cap, src.keys, src.counts;
      ghost var seen: map<Key, u64> := map[];
      StartList(from, at);
      StartMerge(before);
      for i := 0 to n
        invariant Valid()
        invariant (keys == old(keys) || fresh(keys)) && (counts == old(counts) || fresh(counts))
        invariant sk[..] == ks && sc[..] == cs
        invariant seen.Keys <= from.Keys && Copied(from, at, seen, i)
        invariant Denoted(entries) == Merge(before, Denoted(seen))
      {
        CopyStep(ks, cs, from, at, seen, i);
        if sk[i] != EMPTY && sc[i] != 0 {
          DenotedAdd(entries, sk[i], sc[i]);
          Add(sk[i], sc[i]);
        }
        if ks[i] != EMPTY {
          MergeNew(before, seen, ks[i], cs[i]);
          seen := seen[ks[i] := cs[i]];
        }
        CopiedKeys(from, at, seen, i + 1);
      }
      CopyDone(ks, cs, from, at, seen);
    }

    lemma ValidFacts()
      requires Valid()
      ensures keys.Length == counts.Length == cap && entries.Keys == slot.Keys
      ensures Rep(keys[..], counts[..], entries, slot)
    {
    }

    /** The non-zero rows in ascending code-point order, whatever the slots' order. */
    method Sorted() returns (rows: seq<Row>)
      requires Valid()
      ensures rows == Listing(Denoted(entries))
    {
      hide Rep, Copied, Denoted, Lists;
      rows := [];
      ghost var seen: map<Key, u64> := map[];
      RepFacts(keys[..], counts[..], entries, slot);
      StartList(entries, slot);
      for i := 0 to cap
        invariant seen.Keys <= entries.Keys && Copied(entries, slot, seen, i)
        invariant Lists(rows, Denoted(seen))
      {
        CopyStep(keys[..], counts[..], entries, slot, seen, i);
        if keys[i] != EMPTY {
          DenotedNew(rows, seen, keys[i], counts[i]);
          seen := seen[keys[i] := counts[i]];
        }
        if keys[i] != EMPTY && counts[i] != 0 {
          rows := rows + [Row(keys[i], counts[i])];
        }
        CopiedKeys(entries, slot, seen, i + 1);
      }
      CopyDone(keys[..], counts[..], entries, slot, seen);
      SortRowsLists(rows, Denoted(entries));
      rows := SortRows(rows);
    }
  }

  lemma StartList(all: map<Key, u64>, slot: map<Key, nat>)
    requires all.Keys == slot.Keys
    ensures Copied(all, slot, map[], 0) && Lists([], Denoted(map[]))
  {
  }

  lemma StartMerge(m: Rows)
    ensures Merge(m, Denoted(map[])) == m
  {
    MergeUnit(m);
  }

  lemma MergeNew(m: Rows, part: map<Key, u64>, k: Key, c: u64)
    requires k !in part
    ensures var merged := Merge(m, Denoted(part[k := c]));
      merged == if c == 0 then Merge(m, Denoted(part)) else Add(Merge(m, Denoted(part)), k, c)
  {
    hide Merge;
    if c == 0 {
      assert Denoted(part[k := c]) == Denoted(part);
    } else {
      AddMerge(m, Denoted(part), k, c);
      assert Denoted(part[k := c]) == Add(Denoted(part), k, c);
    }
  }

  lemma DenotedNew(rows: seq<Row>, m: map<Key, u64>, k: Key, c: u64)
    requires k !in m && Lists(rows, Denoted(m))
    ensures Lists(if c == 0 then rows else rows + [Row(k, c)], Denoted(m[k := c]))
  {
    hide Lists;
    if c == 0 {
      assert Denoted(m[k := c]) == Denoted(m);
    } else {
      AddLast(rows, Denoted(m), k, c);
      assert Denoted(m[k := c]) == Denoted(m)[k := c];
    }
  }

  lemma EvenCap(log: nat, cap: nat)
    requires log > 0 && cap == Pow2(log)
    ensures cap % 2 == 0
  {
    PowHalf(log);
    hide Pow2;
    ModUnique(cap, 2, Pow2(log - 1), 0);
  }

  lemma PowHalf(log: nat)
    requires log > 0
    ensures Pow2(log) == 2 * Pow2(log - 1)
  {
  }

  lemma Fits(part: map<Key, u64>, all: map<Key, u64>, cap: nat, newcap: nat)
    requires part.Keys <= all.Keys && 2 * |all| <= cap < newcap
    ensures |part| < newcap
  {
    SubsetSize(part.Keys, all.Keys);
  }
}
