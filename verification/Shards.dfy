/** Shard windows (analyze/count.c): the floor-divided cuts, the byte-pair overlap and the code-point seam. */
module Shards {
  import opened Bits
  import opened Rows
  import opened Utf8
  import opened Decoder

  /** `j * size / n` in unsigned 64-bit arithmetic: the product wraps before it is divided. */
  function Cut(size: nat, j: nat, n: nat): (r: nat)
    requires n >= 1
  {
    Wrap(j * size) / n
  }

  /** The guard under which no cut of `n` shards wraps. */
  predicate NoWrap(size: nat, n: nat) { n * size < U64 }

  // ----- arithmetic of the cuts -----

  lemma DivAtLeast(x: int, q: int, n: int)
    requires n > 0 && x >= q * n
    ensures x / n >= q
  {
    if x / n < q { MulLe(x / n + 1, q, n); }
  }

  lemma {:induction false} MulLe(a: int, b: int, n: int)
    requires a <= b && n >= 0
    ensures a * n <= b * n
    decreases b - a
  {
    if a < b {
      MulLe(a + 1, b, n);
      assert (a + 1) * n == a * n + n;
    }
  }

  lemma DivMonotone(a: nat, b: nat, n: nat)
    requires a <= b && n > 0
    ensures a / n <= b / n
  {
    var q := a / n;
    assert a == q * n + a % n;
    DivAtLeast(b, q, n);
  }

  lemma WrapSmall(x: nat)
    requires x < U64
    ensures Wrap(x) == x
  {
  }

  lemma CutPlain(size: nat, j: nat, n: nat)
    requires n >= 1 && j <= n && NoWrap(size, n)
    ensures Cut(size, j, n) == (j * size) / n
  {
    MulLe(j, n, size);
    WrapSmall(j * size);
  }

  /** Without wrap the cuts rise from 0 to the file's end. */
  lemma CutsRise(size: nat, j: nat, n: nat)
    requires n >= 1 && j < n && NoWrap(size, n)
    ensures Cut(size, j, n) <= Cut(size, j + 1, n) <= size
  {
    hide Cut;
    CutPlain(size, j, n);
    CutPlain(size, j + 1, n);
    MulLe(j, j + 1, size);
    MulLe(j + 1, n, size);
    DivMonotone(j * size, (j + 1) * size, n);
    DivMonotone((j + 1) * size, n * size, n);
    ModUnique(n * size, n, size, 0);
  }

  lemma CutEnds(size: nat, n: nat)
    requires n >= 1
    ensures Cut(size, 0, n) == 0
    ensures Cut(size, n, n) == size <==> NoWrap(size, n)
  {
    WrapSmall(0);
    if NoWrap(size, n) {
      WrapSmall(n * size);
      ModUnique(n * size, n, size, 0);
    } else {
      CutShort(size, n, n);
    }
  }

  /** Once the last product wraps, no cut at all reaches the end of the file. */
  lemma CutShort(size: nat, j: nat, n: nat)
    requires n >= 1 && !NoWrap(size, n)
    ensures Cut(size, j, n) < size
  {
    var x := Wrap(j * size);
    assert n * size == size * n;
    assert x == (x / n) * n + x % n;
    if x / n >= size { MulLe(size, x / n, n); }
  }

  /** No cut lies beyond the end of the file, wrapped or not. */
  lemma CutInside(size: nat, j: nat, n: nat)
    requires n >= 1 && j <= n
    ensures Cut(size, j, n) <= size
  {
    if NoWrap(size, n) {
      hide Cut;
      CutPlain(size, j, n);
      MulLe(j, n, size);
      DivMonotone(j * size, n * size, n);
      ModUnique(n * size, n, size, 0);
    } else {
      CutShort(size, j, n);
    }
  }

  /** The first product that wraps. */
  lemma {:induction false} FirstWrap(size: nat, n: nat, j: nat) returns (k: nat)
    requires j <= n && n * size >= U64 && j * size < U64
    ensures j <= k < n && k * size < U64 <= (k + 1) * size
    decreases n - j
  {
    if (j + 1) * size >= U64 {
      k := j;
    } else {
      k := FirstWrap(size, n, j + 1);
    }
  }

  /** Every shard's start is at or before its end if and only if the product n * size fits in 64 bits, for any file
      size and shard count that fit in 63: where the product first wraps, the cut falls. */
  lemma BoundsRiseIff(size: nat, n: nat)
    requires 1 <= n < U63 && size < U63
    ensures NoWrap(size, n) <==> forall k :: 1 <= k <= n ==> Cut(size, k - 1, n) <= Cut(size, k, n)
  {
    hide Cut;
    if NoWrap(size, n) {
      forall k | 1 <= k <= n
        ensures Cut(size, k - 1, n) <= Cut(size, k, n)
      {
        CutsRise(size, k - 1, n);
      }
    } else {
      assert 0 * size < U64;
      var j := FirstWrap(size, n, 0);
      WrapFalls(size, j, n);
      assert 1 <= j + 1 <= n && Cut(size, j + 1 - 1, n) > Cut(size, j + 1, n);
    }
  }

  lemma WrapFalls(size: nat, j: nat, n: nat)
    requires 1 <= n < U63 && size < U63 && j * size < U64 <= (j + 1) * size
    ensures Cut(size, j + 1, n) < Cut(size, j, n)
  {
    var x := j * size;
    assert (j + 1) * size == x + size;
    WrapSmall(x);
    var y := x + size - U64;
    WrapOnce(x + size);
    assert y + n <= x;
    DivMonotone(y + n, x, n);
    DivNext(y, n);
  }

  lemma WrapOnce(x: nat)
    requires U64 <= x < 2 * U64
    ensures Wrap(x) == x - U64
  {
  }

  lemma DivNext(y: nat, n: nat)
    requires n > 0
    ensures (y + n) / n == y / n + 1
  {
    var q, r := y / n, y % n;
    assert y + n == n * (q + 1) + r;
    ModUnique(y + n, n, q + 1, r);
  }

  // ----- pieces of a sequence between rising cuts -----

  ghost predicate Rising(cuts: seq<nat>, top: nat) {
    |cuts| > 0 && cuts[|cuts| - 1] <= top && forall i, j :: 0 <= i <= j < |cuts| ==> cuts[i] <= cuts[j]
  }

  ghost predicate ArePieces<T>(pieces: seq<seq<T>>, s: seq<T>, cuts: seq<nat>) {
    Rising(cuts, |s|) && |pieces| == |cuts| - 1 &&
    forall i :: 0 <= i < |pieces| ==> pieces[i] == s[cuts[i]..cuts[i + 1]]
  }

  lemma {:induction false} FlattenPieces<T>(pieces: seq<seq<T>>, s: seq<T>, cuts: seq<nat>)
    requires ArePieces(pieces, s, cuts)
    ensures Flatten(pieces) == s[cuts[0]..cuts[|cuts| - 1]]
    decreases |pieces|
  {
    var n := |pieces|;
    if n > 0 {
      FlattenPieces(pieces[..n - 1], s, cuts[..n]);
      assert s[cuts[0]..cuts[n]] == s[cuts[0]..cuts[n - 1]] + s[cuts[n - 1]..cuts[n]];
    }
  }

  /** The cuts of all `n` shards. */
  ghost function Cuts(size: nat, n: nat): (r: seq<nat>)
    requires n >= 1
    ensures |r| == n + 1
    ensures forall j :: 0 <= j <= n ==> r[j] == Cut(size, j, n)
  {
    seq(n + 1, j requires 0 <= j <= n => Cut(size, j, n))
  }

  lemma {:induction false} CutsOrdered(size: nat, n: nat, i: nat, j: nat)
    requires n >= 1 && i <= j <= n && NoWrap(size, n)
    ensures Cut(size, i, n) <= Cut(size, j, n)
    decreases j - i
  {
    hide Cut, NoWrap;
    if i < j {
      CutsRise(size, i, n);
      CutsOrdered(size, n, i + 1, j);
    }
  }

  lemma CutsRising(size: nat, n: nat)
    requires n >= 1 && NoWrap(size, n)
    ensures Rising(Cuts(size, n), size)
    ensures Cuts(size, n)[0] == 0 && Cuts(size, n)[n] == size
  {
    hide Cut, NoWrap;
    CutEnds(size, n);
    forall i, j | 0 <= i <= j < n + 1
      ensures Cuts(size, n)[i] <= Cuts(size, n)[j]
    {
      CutsOrdered(size, n, i, j);
    }
  }

  // ----- freq: each byte in exactly one shard -----

  /** Shard `k` of `n` counts byte `i`. */
  ghost predicate Owns(size: nat, n: nat, k: nat, i: nat)
    requires n >= 1
  {
    1 <= k <= n && Cut(size, k - 1, n) <= i < Cut(size, k, n)
  }

  ghost predicate OwnedOnce(size: nat, n: nat, i: nat)
    requires n >= 1
  {
    exists k: nat :: Owns(size, n, k, i) && forall k': nat :: Owns(size, n, k', i) ==> k' == k
  }

  lemma {:induction false} Owner(size: nat, n: nat, i: nat, top: nat) returns (k: nat)
    requires n >= 1 && NoWrap(size, n) && top <= n && i < Cut(size, top, n)
    ensures 1 <= k <= top && Owns(size, n, k, i)
    decreases top
  {
    hide Cut, NoWrap;
    CutEnds(size, n);
    if i >= Cut(size, top - 1, n) {
      k := top;
    } else {
      k := Owner(size, n, i, top - 1);
    }
  }

  /** Every byte is counted by exactly one freq shard if and only if the product n * size fits in 64 bits. */
  lemma FreqTilesIff(size: nat, n: nat)
    requires 1 <= n < U64
    ensures NoWrap(size, n) <==> forall i: nat | i < size :: OwnedOnce(size, n, i)
  {
    hide Cut, NoWrap;
    if NoWrap(size, n) {
      CutEnds(size, n);
      forall i: nat | i < size
        ensures OwnedOnce(size, n, i)
      {
        var k := Owner(size, n, i, n);
        forall k': nat | Owns(size, n, k', i)
          ensures k' == k
        {
          if k < k' { CutsOrdered(size, n, k, k' - 1); }
          if k' < k { CutsOrdered(size, n, k', k - 1); }
        }
      }
    } else {
      WrapNeedsBytes(size, n);
      var last := size - 1;
      if k: nat :| Owns(size, n, k, last) { CutShort(size, k, n); }
      assert !OwnedOnce(size, n, last);
    }
  }

  lemma WrapNeedsBytes(size: nat, n: nat)
    requires n < U64 && !NoWrap(size, n)
    ensures size >= 2
  {
  }

  // ----- bigram: each adjacent pair in exactly one shard -----

  /** Python's slice bounds: a negative index counts from the end, both ends clamp, an inverted range is empty. */
  function PySlice(len: int, lo: int, hi: int): (int, int) {
    var lo1 := if lo < 0 then lo + len else lo;
    var lo2 := if lo1 < 0 then 0 else lo1;
    var lo3 := if lo2 > len then len else lo2;
    var hi1 := if hi < 0 then hi + len else hi;
    var hi2 := if hi1 < 0 then 0 else hi1;
    var hi3 := if hi2 > len then len else hi2;
    (lo3, if lo3 > hi3 then lo3 else hi3)
  }

  function BigramRange(size: nat, k: nat, n: nat): (int, int)
    requires 1 <= k <= n
  {
    var s, e := Cut(size, k - 1, n), Cut(size, k, n);
    PySlice(size, if k > 1 then s - 1 else s, e)
  }

  /** The keys of the adjacent pairs of a window. */
  function PairKeys(s: seq<byte>): (r: seq<nat>)
    ensures |r| == if |s| == 0 then 0 else |s| - 1
  {
    seq(if |s| == 0 then 0 else |s| - 1, i requires 0 <= i < |s| - 1 => PairKey(s[i], s[i + 1]))
  }

  function PairKey(a: byte, b: byte): nat { a as int * 256 + b as int }

  lemma PairSlice(s: seq<byte>, lo: nat, hi: nat)
    requires lo <= hi <= |s|
    ensures PairKeys(s[lo..hi]) == if lo == hi then [] else PairKeys(s)[lo..hi - 1]
  {
  }

  /** The first pair of the shard after cut `j`, counting pairs by their first byte. */
  function PairCut(size: nat, j: nat, n: nat): nat
    requires n >= 1
  {
    if Cut(size, j, n) == 0 then 0 else Cut(size, j, n) - 1
  }

  /** A later shard that starts at 0 reaches at most to byte 1: the wrapped range never loses a pair. */
  lemma LateStartIsShort(size: nat, k: nat, n: nat)
    requires 2 <= k <= n && NoWrap(size, n) && Cut(size, k - 1, n) == 0
    ensures Cut(size, k, n) <= 1
  {
    CutPlain(size, k - 1, n);
    CutPlain(size, k, n);
    var x := (k - 1) * size;
    if x >= n { DivAtLeast(x, 1, n); }
    MulLe(1, k - 1, size);
    assert k * size == x + size;
    DivMonotone(k * size, 2 * n - 1, n);
    ModUnique(2 * n - 1, n, 1, n - 1);
  }

  /** The window of shard `k` holds exactly the pairs between its two pair cuts, wrapped start or not. */
  lemma BigramWindow(data: seq<byte>, k: nat, n: nat)
    requires 1 <= k <= n && NoWrap(|data|, n)
    ensures var (s, e) := BigramRange(|data|, k, n);
      0 <= s <= e <= |data| && PairCut(|data|, k - 1, n) <= PairCut(|data|, k, n) <= |PairKeys(data)| &&
      PairKeys(data[s..e]) == PairKeys(data)[PairCut(|data|, k - 1, n)..PairCut(|data|, k, n)]
  {
    hide Cut, NoWrap;
    var size := |data|;
    CutsRise(size, k - 1, n);
    CutEnds(size, n);
    var (s, e) := BigramRange(size, k, n);
    if k > 1 && Cut(size, k - 1, n) == 0 { LateStartIsShort(size, k, n); }
    PairSlice(data, s, e);
  }

  /** Shard `k` of `n` counts the pair of bytes `i` and `i + 1`. */
  ghost predicate PairOwns(size: nat, n: nat, k: nat, i: nat)
    requires n >= 1
  {
    1 <= k <= n && var (s, e) := BigramRange(size, k, n); s <= i && i + 1 < e
  }

  ghost predicate PairOwnedOnce(size: nat, n: nat, i: nat)
    requires n >= 1
  {
    exists k: nat :: PairOwns(size, n, k, i) && forall k': nat :: PairOwns(size, n, k', i) ==> k' == k
  }

  /** Without wrap a shard counts the pairs between its two pair cuts. */
  lemma PairOwnsIff(size: nat, n: nat, k: nat, i: nat)
    requires 1 <= k <= n && NoWrap(size, n) && i + 1 < size
    ensures PairOwns(size, n, k, i) <==> PairCut(size, k - 1, n) <= i < PairCut(size, k, n)
  {
    hide Cut, NoWrap;
    CutsRise(size, k - 1, n);
    CutEnds(size, n);
    if k > 1 && Cut(size, k - 1, n) == 0 { LateStartIsShort(size, k, n); }
  }

  lemma {:induction false} PairOwner(size: nat, n: nat, i: nat, top: nat) returns (k: nat)
    requires n >= 1 && NoWrap(size, n) && i + 1 < size && top <= n && i < PairCut(size, top, n)
    ensures 1 <= k <= top && PairOwns(size, n, k, i)
    decreases top
  {
    hide Cut, NoWrap, BigramRange;
    CutEnds(size, n);
    if i >= PairCut(size, top - 1, n) {
      k := top;
      PairOwnsIff(size, n, k, i);
    } else {
      k := PairOwner(size, n, i, top - 1);
    }
  }

  lemma PairNotShort(size: nat, n: nat, k: nat)
    requires 1 <= k <= n && !NoWrap(size, n) && size >= 2
    ensures !PairOwns(size, n, k, size - 2)
  {
    hide Cut, NoWrap;
    CutShort(size, k, n);
  }

  /** Every pair of adjacent bytes is counted by exactly one bigram shard if and only if the product n * size fits in
      64 bits; once it wraps, the last pair is in no shard. */
  lemma PairTilesIff(size: nat, n: nat)
    requires 1 <= n < U64
    ensures NoWrap(size, n) <==> forall i: nat | i + 1 < size :: PairOwnedOnce(size, n, i)
  {
    hide Cut, NoWrap, PairCut, BigramRange;
    if NoWrap(size, n) {
      forall i: nat | i + 1 < size
        ensures PairOwnedOnce(size, n, i)
      {
        LastPairCut(size, n);
        var k := PairOwner(size, n, i, n);
        forall k': nat | PairOwns(size, n, k', i)
          ensures k' == k
        {
          PairOwnsIff(size, n, k, i);
          PairOwnsIff(size, n, k', i);
          if k < k' { PairCutsOrdered(size, n, k, k' - 1); }
          if k' < k { PairCutsOrdered(size, n, k', k - 1); }
        }
      }
    } else {
      WrapNeedsBytes(size, n);
      var last := size - 2;
      if k: nat :| PairOwns(size, n, k, last) { PairNotShort(size, n, k); }
      assert !PairOwnedOnce(size, n, last);
    }
  }

  lemma LastPairCut(size: nat, n: nat)
    requires n >= 1 && NoWrap(size, n) && size >= 1
    ensures PairCut(size, n, n) == size - 1
  {
    hide Cut, NoWrap;
    CutEnds(size, n);
  }

  lemma PairCutsOrdered(size: nat, n: nat, i: nat, j: nat)
    requires n >= 1 && i <= j <= n && NoWrap(size, n)
    ensures PairCut(size, i, n) <= PairCut(size, j, n)
  {
    hide Cut, NoWrap;
    CutsOrdered(size, n, i, j);
  }

  // ----- cpfreq: windows moved to character boundaries -----

  /** The first offset at or after `i` that is no continuation byte, or `top`. */
  function SkipCont(data: seq<byte>, i: nat, top: nat): (r: nat)
    requires i <= top <= |data|
    ensures i <= r <= top && forall j :: i <= j < r ==> Cont(data[j])
    ensures r < top ==> !Cont(data[r])
    decreases top - i
  {
    if i < top && Cont(data[i]) then SkipCont(data, i + 1, top) else i
  }

  function Lead(data: seq<byte>, i: nat): (r: nat)
    requires i <= |data|
    ensures i <= r <= |data|
  {
    SkipCont(data, i, |data|)
  }

  /** Both loops stay inside the file for every shard, wrapped cuts or not. */
  method CpfreqShardRange(data: seq<byte>, k: nat, n: nat) returns (start: nat, end: nat)
    requires 1 <= k <= n
    ensures (start, end) == CpfreqRange(data, k, n)
  {
    hide Cut;
    CutInside(|data|, k - 1, n);
    CutInside(|data|, k, n);
    var s, e := Cut(|data|, k - 1, n), Cut(|data|, k, n);
    start := s;
    while start < e && Cont(data[start])
      invariant s <= start && (s < e ==> start <= e && SkipCont(data, start, e) == SkipCont(data, s, e))
      invariant s >= e ==> start == s
    {
      start := start + 1;
    }
    end := e;
    while end < |data| && Cont(data[end])
      invariant e <= end <= |data| && Lead(data, end) == Lead(data, e)
    {
      end := end + 1;
    }
  }

  /** The window's two ends. They are in order when the shard's cuts are, or when nothing but continuation bytes stands
      between the two. */
  function CpfreqRange(data: seq<byte>, k: nat, n: nat): (r: (nat, nat))
    requires 1 <= k <= n
    ensures r.0 <= |data| && r.1 <= |data|
    ensures Cut(|data|, k, n) <= |data| &&
      (r.0 <= r.1 <==> Cut(|data|, k - 1, n) <= Cut(|data|, k, n) || Cut(|data|, k - 1, n) <= Lead(data, Cut(|data|, k, n)))
    ensures NoWrap(|data|, n) ==> r.0 <= r.1
  {
    RangeInside(|data|, k, n);
    var s, e := Cut(|data|, k - 1, n), Cut(|data|, k, n);
    (if s < e then SkipCont(data, s, e) else s, Lead(data, e))
  }

  lemma RangeInside(size: nat, k: nat, n: nat)
    requires 1 <= k <= n
    ensures Cut(size, k - 1, n) <= size && Cut(size, k, n) <= size
    ensures NoWrap(size, n) ==> Cut(size, k - 1, n) <= Cut(size, k, n)
  {
    hide Cut, NoWrap;
    CutInside(size, k - 1, n);
    CutInside(size, k, n);
    if NoWrap(size, n) { CutsRise(size, k - 1, n); }
  }

  function CpfreqWindow(data: seq<byte>, k: nat, n: nat): seq<byte>
    requires 1 <= k <= n && NoWrap(|data|, n)
  {
    var r := CpfreqRange(data, k, n);
    data[r.0..r.1]
  }

  /** Shard `k` holds no character start of its own, and a character runs across its end. */
  predicate Stranded(data: seq<byte>, k: nat, n: nat)
    requires 1 <= k <= n && NoWrap(|data|, n)
  {
    CutsRise(|data|, k - 1, n);
    var s, e := Cut(|data|, k - 1, n), Cut(|data|, k, n);
    (forall i :: s <= i < e ==> Cont(data[i])) && e < |data| && Cont(data[e])
  }

  lemma {:induction false} SkipUnique(data: seq<byte>, i: nat, top: nat, r: nat)
    requires i <= r <= top <= |data|
    requires forall j :: i <= j < r ==> Cont(data[j])
    requires r < top ==> !Cont(data[r])
    ensures SkipCont(data, i, top) == r
  {
  }

  /** A stranded shard's window is a non-empty run of continuation bytes; any other shard's window runs from the
      first character start after one cut to the first after the next. */
  lemma WindowShape(data: seq<byte>, k: nat, n: nat)
    requires 1 <= k <= n && NoWrap(|data|, n)
    ensures var (s, e) := (Cut(|data|, k - 1, n), Cut(|data|, k, n));
      s <= e <= |data| &&
      if Stranded(data, k, n) then
        CpfreqWindow(data, k, n) != [] && Cont(CpfreqWindow(data, k, n)[0])
      else
        Lead(data, s) <= Lead(data, e) && CpfreqWindow(data, k, n) == data[Lead(data, s)..Lead(data, e)]
  {
    hide Cut, NoWrap;
    CutsRise(|data|, k - 1, n);
    var s, e := Cut(|data|, k - 1, n), Cut(|data|, k, n);
    var first := SkipCont(data, s, e);
    if Stranded(data, k, n) {
      SkipUnique(data, s, e, e);
    } else if first < e {
      SkipUnique(data, s, |data|, first);
    } else {
      assert e < |data| ==> !Cont(data[e]);
      SkipUnique(data, s, |data|, e);
      SkipUnique(data, e, |data|, e);
    }
  }

  lemma LeadMonotone(data: seq<byte>, i: nat, j: nat)
    requires i <= j <= |data|
    ensures Lead(data, i) <= Lead(data, j)
  {
  }

  /** Cuts that never split a character. */
  ghost predicate AtBoundaries(data: seq<byte>, cuts: seq<nat>) {
    Rising(cuts, |data|) && forall j :: 0 <= j < |cuts| && cuts[j] < |data| ==> !Cont(data[cuts[j]])
  }

  ghost function ScalarKeys(pieces: seq<seq<byte>>): (r: seq<seq<nat>>)
    ensures |r| == |pieces| && forall i :: 0 <= i < |pieces| ==> r[i] == Decode(pieces[i]).scalars
  {
    seq(|pieces|, i requires 0 <= i < |pieces| => Decode(pieces[i]).scalars)
  }

  ghost predicate AllValid(pieces: seq<seq<byte>>) {
    forall i :: 0 <= i < |pieces| ==> Valid(pieces[i])
  }

  /** The accumulated class of a list of windows, the first one starting from no class. */
  function ClassifyAll(pieces: seq<seq<byte>>): string {
    if pieces == [] then "" else Combine(ClassifyAll(pieces[..|pieces| - 1]), Classify(pieces[|pieces| - 1]))
  }

  /** Decoding pieces cut at character boundaries is decoding the whole. */
  lemma {:induction false} DecodePieces(pieces: seq<seq<byte>>, data: seq<byte>, cuts: seq<nat>)
    requires ArePieces(pieces, data, cuts) && AtBoundaries(data, cuts)
    ensures var whole := data[cuts[0]..cuts[|cuts| - 1]];
      (AllValid(pieces) <==> Valid(whole)) &&
      (Valid(whole) ==> Flatten(ScalarKeys(pieces)) == Decode(whole).scalars)
    decreases |pieces|
  {
    hide Decode;
    var n := |pieces|;
    if n == 0 {
      EmptyDecodes();
      assert data[cuts[0]..cuts[0]] == [];
    } else {
      var init, last := data[cuts[0]..cuts[n - 1]], data[cuts[n - 1]..cuts[n]];
      DecodePieces(pieces[..n - 1], data, cuts[..n]);
      assert init + last == data[cuts[0]..cuts[n]];
      DecodeSplit(init, last);
      AllValidSnoc(pieces);
      assert ScalarKeys(pieces)[..n - 1] == ScalarKeys(pieces[..n - 1]);
    }
  }

  /** The maximum of the pieces' classes is the class of the whole. */
  lemma {:induction false} ClassifyPieces(pieces: seq<seq<byte>>, data: seq<byte>, cuts: seq<nat>)
    requires ArePieces(pieces, data, cuts) && AtBoundaries(data, cuts) && pieces != []
    ensures ClassifyAll(pieces) == Classify(data[cuts[0]..cuts[|cuts| - 1]])
    decreases |pieces|
  {
    hide Classify, Combine;
    var n := |pieces|;
    var init, last := data[cuts[0]..cuts[n - 1]], data[cuts[n - 1]..cuts[n]];
    assert init + last == data[cuts[0]..cuts[n]];
    ClassifySplit(init, last);
    if n == 1 {
      EmptyClass(init, last);
    } else {
      ClassifyPieces(pieces[..n - 1], data, cuts[..n]);
    }
  }

  lemma AllValidSnoc(pieces: seq<seq<byte>>)
    requires pieces != []
    ensures AllValid(pieces) <==> AllValid(pieces[..|pieces| - 1]) && Valid(pieces[|pieces| - 1])
  {
    hide Valid;
    if AllValid(pieces[..|pieces| - 1]) {
      assert forall i :: 0 <= i < |pieces| - 1 ==> pieces[..|pieces| - 1][i] == pieces[i];
    }
  }

  lemma EmptyDecodes()
    ensures Decode([]) == Decoded([], 0)
  {
  }

  lemma EmptyClass(a: seq<byte>, b: seq<byte>)
    requires a == []
    ensures Combine("", Classify(b)) == Combine(Classify(a), Classify(b))
  {
    EmptyDecodes();
  }

  ghost function Windows(data: seq<byte>, n: nat): (r: seq<seq<byte>>)
    requires n >= 1 && NoWrap(|data|, n)
    ensures |r| == n && forall k :: 1 <= k <= n ==> r[k - 1] == CpfreqWindow(data, k, n)
  {
    seq(n, i requires 0 <= i < n => CpfreqWindow(data, i + 1, n))
  }

  ghost predicate NoneStranded(data: seq<byte>, n: nat)
    requires n >= 1 && NoWrap(|data|, n)
  {
    forall k :: 1 <= k <= n ==> !Stranded(data, k, n)
  }

  ghost function LeadCuts(data: seq<byte>, n: nat): (r: seq<nat>)
    requires n >= 1 && NoWrap(|data|, n)
    ensures |r| == n + 1 && forall j :: 0 <= j <= n ==> Cut(|data|, j, n) <= |data| && r[j] == Lead(data, Cut(|data|, j, n))
  {
    CutsRising(|data|, n);
    seq(n + 1, j requires 0 <= j <= n => Lead(data, Cuts(|data|, n)[j]))
  }

  lemma WindowsArePieces(data: seq<byte>, n: nat)
    requires n >= 1 && NoWrap(|data|, n) && NoneStranded(data, n)
    ensures ArePieces(Windows(data, n), data, LeadCuts(data, n)) && AtBoundaries(data, LeadCuts(data, n))
    ensures LeadCuts(data, n)[0] == Lead(data, 0) && LeadCuts(data, n)[n] == |data|
  {
    hide Cut, NoWrap, Lead, Stranded, CpfreqWindow;
    CutEnds(|data|, n);
    LeadAtEnd(data);
    var cuts := LeadCuts(data, n);
    forall i, j | 0 <= i <= j < n + 1
      ensures cuts[i] <= cuts[j]
    {
      CutsOrdered(|data|, n, i, j);
      LeadMonotone(data, Cut(|data|, i, n), Cut(|data|, j, n));
    }
    forall i | 0 <= i < n
      ensures Windows(data, n)[i] == data[cuts[i]..cuts[i + 1]]
    {
      WindowShape(data, i + 1, n);
      assert Windows(data, n)[i] == CpfreqWindow(data, i + 1, n);
    }
    forall j | 0 <= j < n + 1 && cuts[j] < |data|
      ensures !Cont(data[cuts[j]])
    {
      LeadIsStart(data, Cut(|data|, j, n));
    }
  }

  lemma LeadAtEnd(data: seq<byte>)
    ensures Lead(data, |data|) == |data|
  {
  }

  lemma LeadIsStart(data: seq<byte>, i: nat)
    requires i <= |data| && Lead(data, i) < |data|
    ensures !Cont(data[Lead(data, i)])
  {
  }

  lemma StrandedIsBytes(data: seq<byte>, k: nat, n: nat)
    requires 1 <= k <= n && NoWrap(|data|, n) && Stranded(data, k, n)
    ensures !Valid(CpfreqWindow(data, k, n)) && Classify(CpfreqWindow(data, k, n)) == "bytes"
  {
    hide Stranded, CpfreqWindow, Decode;
    WindowShape(data, k, n);
    if Valid(CpfreqWindow(data, k, n)) { ValidStart(CpfreqWindow(data, k, n)); }
  }

  lemma {:induction false} OneBytes(pieces: seq<seq<byte>>, i: nat)
    requires i < |pieces| && Classify(pieces[i]) == "bytes"
    ensures ClassifyAll(pieces) == "bytes"
    decreases |pieces|
  {
    hide Classify;
    if i < |pieces| - 1 { OneBytes(pieces[..|pieces| - 1], i); }
    ClassifyRange(pieces[|pieces| - 1]);
    if |pieces| > 1 { ClassifyAllRange(pieces[..|pieces| - 1]); }
  }

  lemma ClassifyRange(s: seq<byte>)
    ensures Classify(s) in {"ascii", "utf8", "bytes"}
  {
  }

  lemma {:induction false} ClassifyAllRange(pieces: seq<seq<byte>>)
    requires pieces != []
    ensures ClassifyAll(pieces) in {"ascii", "utf8", "bytes"}
    decreases |pieces|
  {
    hide Classify;
    ClassifyRange(pieces[|pieces| - 1]);
    if |pieces| > 1 { ClassifyAllRange(pieces[..|pieces| - 1]); }
  }

  // ----- the sharding theorems -----

  /** All `n` code-point scans succeed exactly when no shard is stranded and the file, past the continuation
      bytes it starts with, is valid; then together they read that part's characters, each once and in order. */
  lemma CpfreqTilesIff(data: seq<byte>, n: nat)
    requires n >= 1 && NoWrap(|data|, n)
    ensures AllValid(Windows(data, n)) <==> NoneStranded(data, n) && Valid(data[Lead(data, 0)..])
    ensures AllValid(Windows(data, n)) ==>
      Flatten(ScalarKeys(Windows(data, n))) == Decode(data[Lead(data, 0)..]).scalars
  {
    hide Decode, Cut, Lead, NoWrap, Stranded, CpfreqWindow;
    if NoneStranded(data, n) {
      WindowsArePieces(data, n);
      DecodePieces(Windows(data, n), data, LeadCuts(data, n));
      assert data[Lead(data, 0)..] == data[Lead(data, 0)..|data|];
    } else {
      var k :| 1 <= k <= n && Stranded(data, k, n);
      StrandedIsBytes(data, k, n);
      assert Windows(data, n)[k - 1] == CpfreqWindow(data, k, n);
    }
  }

  /** What the merged shards say the encoding is, for every file and every shard count. */
  lemma MergedEncoding(data: seq<byte>, n: nat)
    requires n >= 1 && NoWrap(|data|, n)
    ensures ClassifyAll(Windows(data, n)) ==
      if NoneStranded(data, n) then Classify(data[Lead(data, 0)..]) else "bytes"
  {
    hide Decode, Classify, ClassifyAll, Cut, Lead, NoWrap, Stranded, CpfreqWindow;
    if NoneStranded(data, n) {
      WindowsArePieces(data, n);
      ClassifyPieces(Windows(data, n), data, LeadCuts(data, n));
      assert data[Lead(data, 0)..] == data[Lead(data, 0)..|data|];
    } else {
      var k :| 1 <= k <= n && Stranded(data, k, n);
      StrandedIsBytes(data, k, n);
      assert Windows(data, n)[k - 1] == CpfreqWindow(data, k, n);
      OneBytes(Windows(data, n), k - 1);
    }
  }

  /** The merged encoding is the whole file's exactly when: a stranded shard only occurs in a file that is not
      valid UTF-8, and a file that starts with a continuation byte is still invalid without its first ones. */
  lemma MergedEncodingIff(data: seq<byte>, n: nat)
    requires n >= 1 && NoWrap(|data|, n)
    ensures ClassifyAll(Windows(data, n)) == Classify(data) <==>
      if !NoneStranded(data, n) then !Valid(data)
      else data == [] || !Cont(data[0]) || !Valid(data[Lead(data, 0)..])
  {
    hide Decode, HighByte, ClassifyAll, Cut, NoWrap, Stranded;
    MergedEncoding(data, n);
    if data != [] && Cont(data[0]) {
      if Valid(data) { ValidStart(data); }
    } else {
      SkipUnique(data, 0, |data|, 0);
      assert data[0..] == data;
    }
  }

  /** A valid file is never stranded once every shard can hold a whole character: 3n <= size is enough. */
  lemma WideShards(data: seq<byte>, n: nat)
    requires n >= 1 && NoWrap(|data|, n) && Valid(data) && 3 * n <= |data|
    ensures NoneStranded(data, n) && Lead(data, 0) == 0
  {
    hide Decode, Cut, NoWrap;
    if data != [] { ValidStart(data); }
    SkipUnique(data, 0, |data|, 0);
    forall k | 1 <= k <= n
      ensures !Stranded(data, k, n)
    {
      WidthAtLeast(|data|, k, n, 3);
      var e := Cut(|data|, k, n);
      if e < |data| { ContRun(data, e - 3); }
    }
  }

  lemma WidthAtLeast(size: nat, k: nat, n: nat, w: nat)
    requires 1 <= k <= n && NoWrap(size, n) && w * n <= size
    ensures Cut(size, k, n) >= Cut(size, k - 1, n) + w
  {
    hide Cut;
    CutPlain(size, k - 1, n);
    CutPlain(size, k, n);
    var x := (k - 1) * size;
    assert k * size == x + size;
    assert x == x / n * n + x % n;
    assert (x / n + w) * n == x / n * n + w * n;
    DivAtLeast(k * size, x / n + w, n);
  }
}
