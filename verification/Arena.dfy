/** The bump allocator of src/core/arena.c: a list of zero-initialised regions cut from blocks, released wholesale.
    Obtaining a block from `malloc` is `new Block`, with the address `malloc` returned and the size it was asked for. */
module Arena {
  import opened Bits

  const ABLOCK_MIN: nat := 65536

  /** `sizeof(ABlock)` where pointers and `size_t` take eight bytes: `next`, `used` and `cap` stand before `mem`. */
  const HEADER: nat := 24

  // ----- rounding a request -----

  /** `(sz + 15) & ~(size_t)15`: the sum wraps at 2^64. */
  function Rounded(sz: u64): nat { And((sz + 15) % U64, U64 - 16) }

  /** A request becomes the least multiple of 16 that holds it, unless the sum wraps: then it becomes 0. */
  lemma RoundedIs(sz: u64)
    ensures Rounded(sz) == if sz <= U64 - 16 then (sz + 15) / 16 * 16 else 0
    ensures Rounded(sz) % 16 == 0 && Rounded(sz) < U64
    ensures sz <= Rounded(sz) <==> sz <= U64 - 16
    ensures sz <= U64 - 16 ==> Rounded(sz) < sz + 16
  {
    hide And;
    MaskSixteen((sz + 15) % U64);
  }

  lemma MaskSixteen(x: u64)
    ensures And(x, U64 - 16) == x / 16 * 16
  {
    var m := 0x1000_0000_0000_0000;
    hide And, Pow2;
    AndTimesSixteen(x, m - 1);
    PowSixty();
    MaskIsMod(x / 16, 60, m);
    assert x / 16 < m;
    ModSmall(x / 16, m);
  }

  lemma ModSmall(a: nat, m: nat)
    requires a < m
    ensures a % m == a
  {
  }

  lemma PowSixty()
    ensures Pow2(60) == 0x1000_0000_0000_0000
  {
    hide Pow2;
    PowFive();
    PowSum(5, 5);
    PowSum(10, 5);
    PowSum(15, 15);
    PowSum(30, 30);
  }

  lemma PowFive()
    ensures Pow2(5) == 32
  {
    assert Pow2(0) == 1 && Pow2(1) == 2 && Pow2(2) == 4 && Pow2(3) == 8 && Pow2(4) == 16;
  }

  lemma {:induction false} PowSum(a: nat, b: nat)
    ensures Pow2(a + b) == Pow2(a) * Pow2(b)
    decreases a
  {
    if a > 0 {
      PowSum(a - 1, b);
      assert Pow2(a + b) == 2 * Pow2(a - 1 + b);
      assert 2 * (Pow2(a - 1) * Pow2(b)) == (2 * Pow2(a - 1)) * Pow2(b);
    }
  }

  lemma AndTimesSixteen(x: nat, m: nat)
    ensures And(x, 16 * m) == 16 * And(x / 16, m)
  {
    hide And;
    var a, b, c, d := x / 2, x / 4, x / 8, x / 16;
    assert a / 2 == b && b / 2 == c && c / 2 == d;
    var n, o, p := 2 * m, 4 * m, 8 * m;
    AndEven(x, p);
    AndEven(a, o);
    AndEven(b, n);
    AndEven(c, m);
  }

  lemma {:induction false} AndEven(x: nat, m: nat)
    ensures And(x, 2 * m) == 2 * And(x / 2, m)
  {
    var n := 2 * m;
    assert n / 2 == m && n % 2 == 0;
  }

  /** The capacity of a block opened for a rounded request, and the bytes asked of `malloc` for it: the sum wraps. */
  function CapFor(need: nat): nat { if need > ABLOCK_MIN then need else ABLOCK_MIN }

  function Asked(cap: nat): nat { (HEADER + cap) % U64 }

  /** A request in a new block is held, header, capacity and all, exactly up to 2^64 - 32 bytes. Above that the bytes
      asked of `malloc` wrap, and above 2^64 - 16 the rounded size does. */
  lemma HeldIff(sz: u64)
    ensures var cap := CapFor(Rounded(sz));
            sz <= Rounded(sz) <= cap && HEADER + cap <= Asked(cap) <==> sz <= U64 - 32
  {
    hide Rounded;
    RoundedIs(sz);
    var need := Rounded(sz);
    if U64 - 32 < sz <= U64 - 16 {
      assert need == U64 - 16;
    } else {
      assert HEADER + CapFor(need) < U64;
      ModSmall(HEADER + CapFor(need), U64);
    }
  }

  // ----- blocks and regions -----

  class Block {
    /** Where `malloc` put the block, and how many bytes it was asked for. */
    const base: nat
    const asked: nat
    const cap: nat
    const mem: array<byte>
    const next: Block?
    var used: nat
    /** Whether the block has been handed back to `free`. */
    var freed: bool

    /** `malloc` promises nothing about the bytes of a new block. */
    constructor (base: nat, cap: nat, next: Block?)
      ensures this.base == base && asked == Asked(cap)
      ensures this.cap == cap && mem.Length == cap && this.next == next && used == 0 && !freed && fresh(mem)
    {
      this.base, asked := base, Asked(cap);
      this.cap, this.next, used, freed := cap, next, 0, false;
      mem := new byte[cap];
    }
  }

  /** What one allocation returned: `size` bytes of a block's memory. */
  datatype Region = Region(block: Block, start: nat, size: nat)

  /** The address that is returned for a region. */
  function Address(r: Region): nat { r.block.base + HEADER + r.start }

  /** A region that starts at a multiple of 16 within its block is returned at one exactly when the block's bytes start
      at one; in a block that `malloc` aligned to 16 every address is 8 beyond a multiple of 16. */
  lemma AddressAligned(r: Region)
    requires r.start % 16 == 0
    ensures Address(r) % 16 == 0 <==> (r.block.base + HEADER) % 16 == 0
    ensures r.block.base % 16 == 0 ==> Address(r) % 16 == 8
  {
    assert r.start == 16 * (r.start / 16) && r.block.base == 16 * (r.block.base / 16) + r.block.base % 16;
  }

  /** `bs` are the blocks met by following `next` from `h`. */
  ghost predicate Chain(h: Block?, bs: seq<Block>) {
    if bs == [] then h == null else h == bs[0] && Chain(bs[0].next, bs[1..])
  }

  ghost predicate Apart(r: Region, s: Region) {
    r.block != s.block || r.start + r.size <= s.start || s.start + s.size <= r.start
  }

  ghost function Bytes(r: Region): seq<byte>
    requires r.start + r.size <= r.block.mem.Length
    reads r.block.mem
  {
    r.block.mem[r.start..r.start + r.size]
  }

  method Zero(mem: array<byte>, start: nat, n: nat)
    requires start + n <= mem.Length
    modifies mem
    ensures mem[start..start + n] == Zeros(n)
    ensures forall j :: 0 <= j < mem.Length && !(start <= j < start + n) ==> mem[j] == old(mem[j])
  {
    forall k | start <= k < start + n {
      mem[k] := 0;
    }
  }

  function Zeros(n: nat): (r: seq<byte>)
    ensures |r| == n && forall k :: 0 <= k < n ==> r[k] == 0
  {
    seq(n, _ => 0)
  }

  /** Bytes that differ inside `r` only leave every region apart from it. */
  lemma SlicesKept(regions: seq<Region>, r: Region, before: seq<byte>, after: seq<byte>)
    requires |before| == |after| == r.block.mem.Length
    requires forall j :: 0 <= j < |after| && !(r.start <= j < r.start + r.size) ==> after[j] == before[j]
    requires forall k :: 0 <= k < |regions| ==> Apart(regions[k], r)
    requires forall k :: 0 <= k < |regions| ==> regions[k].start + regions[k].size <= regions[k].block.mem.Length
    ensures forall k :: 0 <= k < |regions| && regions[k].block == r.block ==>
              after[regions[k].start..regions[k].start + regions[k].size] ==
              before[regions[k].start..regions[k].start + regions[k].size]
  {
  }

  // ----- the arena -----

  class Arena {
    var head: Block?
    /** The block list, newest first, and every region handed out since the arena was last empty. */
    ghost var blocks: seq<Block>
    ghost var live: seq<Region>

    ghost predicate Listed()
      reads this
    {
      Chain(head, blocks) &&
      forall i, j :: 0 <= i < j < |blocks| ==> blocks[i] != blocks[j] && blocks[i].mem != blocks[j].mem
    }

    ghost predicate BlocksOk()
      reads this, blocks
    {
      forall b :: b in blocks ==> !b.freed && b.used <= b.cap == b.mem.Length && b.used % 16 == 0
    }

    ghost predicate RegionsOk()
      reads this, blocks
    {
      && (forall k :: 0 <= k < |live| ==> live[k].block in blocks && live[k].start % 16 == 0 &&
                                          live[k].start + live[k].size <= live[k].block.used)
      && (forall j, k :: 0 <= j < k < |live| ==> Apart(live[j], live[k]))
    }

    /** Every block got the bytes that its header and capacity take. */
    ghost predicate Held()
      reads this
    {
      forall b :: b in blocks ==> HEADER + b.cap <= b.asked
    }

    ghost predicate Valid()
      reads this, blocks
    {
      Listed() && BlocksOk() && RegionsOk()
    }

    constructor ()
      ensures Valid() && blocks == [] && live == []
    {
      head, blocks, live := null, [], [];
    }

    /** Opens a block at the head of the list. */
    method Open(cap: nat, base: nat)
      requires Valid()
      modifies this
      ensures Valid() && |blocks| > 0 && blocks[1..] == old(blocks) && live == old(live)
      ensures head == blocks[0] && head.used == 0 && head.cap == cap && fresh(head) && fresh(head.mem)
      ensures head.base == base && head.asked == Asked(cap)
    {
      var b := new Block(base, cap, head);
      head, blocks := b, [b] + blocks;
      assert blocks[1..] == old(blocks);
    }

    lemma HeadFacts()
      requires Valid() && head != null
      ensures head in blocks && head.used <= head.cap == head.mem.Length && head.used % 16 == 0
      ensures forall k :: 0 <= k < |live| ==> live[k].start + live[k].size <= live[k].block.mem.Length
    {
    }

    /** Cuts a region off the newest block and zeroes it. */
    method Cut(need: nat) returns (r: Region)
      requires Valid() && need % 16 == 0 && head != null && head.cap - head.used >= need
      modifies `live, head`used, head.mem
      ensures Valid() && live == old(live) + [r] && r == Region(head, old(head.used), need)
      ensures head.used == old(head.used) + need
      ensures Bytes(r) == Zeros(need)
      ensures forall k :: 0 <= k < |old(live)| ==> Apart(live[k], r)
      ensures forall k :: 0 <= k < |old(live)| ==> Bytes(live[k]) == old(Bytes(live[k]))
    {
      ghost var regions := live;
      HeadFacts();
      Distinct();
      hide Valid, Apart;
      r := Region(head, head.used, need);
      CutRegions(r);
      head.used := head.used + need;
      ghost var before := head.mem[..];
      Zero(head.mem, r.start, need);
      live := live + [r];
      CutValid(r);
      SlicesKept(regions, r, before, head.mem[..]);
    }

    /** No two blocks share memory. */
    lemma Distinct()
      requires Valid() && head != null
      ensures forall k :: 0 <= k < |live| ==> live[k].block != head ==> live[k].block.mem != head.mem
    {
    }

    /** Growing the newest block's used part by one region keeps the invariant. */
    twostate lemma CutValid(r: Region)
      requires old(Valid()) && head == old(head) && head != null && blocks == old(blocks)
      requires r == Region(head, old(head.used), r.size) && r.size % 16 == 0 && head.used == old(head.used) + r.size
      requires head.used <= head.cap && live == old(live) + [r] && head.freed == old(head.freed)
      requires forall b :: b in blocks && b != head ==> unchanged(b)
      requires forall k :: 0 <= k < |old(live)| ==> Apart(live[k], r)
      ensures Valid() && r.start + r.size <= r.block.mem.Length && Bytes(r) == head.mem[r.start..r.start + r.size]
    {
      hide Apart, Chain;
      assert head == blocks[0] && head in blocks by { HeadIs(); }
    }

    twostate lemma HeadIs()
      requires old(Valid()) && head == old(head) && head != null && blocks == old(blocks)
      ensures blocks != [] && head == blocks[0]
    {
    }

    /** A region starting at `used` is apart from every live one. */
    lemma CutRegions(r: Region)
      requires Valid() && head != null && r.block == head && r.start == head.used
      ensures forall k :: 0 <= k < |live| ==> Apart(live[k], r)
    {
    }

    /** Allocates: the region is zeroed, inside its block, at a multiple of 16 from the block's first byte, and apart
        from all others, and no byte of any other live region changes. It holds the request except when rounding
        wrapped, and its block holds it except when the size asked of `malloc` did. `base` is where `malloc` would put
        a new block. */
    method Alloc(sz: u64, base: nat) returns (r: Region)
      requires Valid()
      modifies this, head, if head == null then {} else {head.mem}
      ensures Valid() && live == old(live) + [r]
      ensures r.size == Rounded(sz) && r.block in blocks && r.start + r.size <= r.block.mem.Length
      ensures Address(r) % 16 == 0 <==> (r.block.base + HEADER) % 16 == 0
      ensures old(Held()) && sz <= U64 - 32 ==> Held() && sz <= r.size
      ensures Bytes(r) == Zeros(r.size)
      ensures forall k :: 0 <= k < |old(live)| ==> Apart(live[k], r)
      ensures forall k :: 0 <= k < |old(live)| ==> Bytes(live[k]) == old(Bytes(live[k]))
      ensures if old(head) != null && old(head.cap - head.used) >= Rounded(sz)
              then blocks == old(blocks) && r.block == old(head) && r.start == old(head.used)
              else |blocks| > 0 && blocks[1..] == old(blocks) && fresh(blocks[0]) && r.block == blocks[0] &&
                   r.start == 0 && r.block.base == base && r.block.cap == (if Rounded(sz) > 65536 then Rounded(sz) else 65536) &&
                   r.block.asked == Asked(r.block.cap)
    {
      hide Rounded;
      var need := Rounded(sz);
      RoundedIs(sz);
      if head == null || head.cap - head.used < need {
        Open(if need > ABLOCK_MIN then need else ABLOCK_MIN, base);
      }
      r := Cut(need);
      Placed(r);
      if old(Held()) && sz <= U64 - 32 { StillHeld(sz); }
    }

    lemma Placed(r: Region)
      requires Valid() && r in live
      ensures Address(r) % 16 == 0 <==> (r.block.base + HEADER) % 16 == 0
    {
      AddressAligned(r);
    }

    twostate lemma StillHeld(sz: u64)
      requires old(Held()) && sz <= U64 - 32
      requires blocks == old(blocks) || (blocks != [] && blocks[1..] == old(blocks) &&
               blocks[0].cap == CapFor(Rounded(sz)) && blocks[0].asked == Asked(blocks[0].cap))
      ensures Held() && sz <= Rounded(sz)
    {
      hide Rounded, Asked;
      HeldIff(sz);
    }

    /** The owner of one region writes to it: no other live region sees it. */
    method Store(r: Region, i: nat, v: byte)
      requires Valid() && r in live && i < r.size
      modifies r.block.mem
      ensures Valid()
      ensures Bytes(r) == old(Bytes(r))[i := v]
      ensures forall s :: s in live && s != r ==> Bytes(s) == old(Bytes(s))
    {
      r.block.mem[r.start + i] := v;
    }

    /** Teardown: every block is handed to `free` once, in list order, and never looked at afterwards. */
    method Free() returns (ghost released: seq<Block>)
      requires Valid()
      modifies this, blocks
      ensures Valid() && head == null && live == []
      ensures released == old(blocks)
      ensures forall b :: b in released ==> b.freed
      ensures forall i, j :: 0 <= i < j < |released| ==> released[i] != released[j]
    {
      var b := head;
      released := [];
      ghost var all := blocks;
      assert all[0..] == all;
      while b != null
        invariant blocks == all
        invariant |released| <= |all| && released == all[..|released|]
        invariant Chain(b, all[|released|..])
        invariant forall k :: 0 <= k < |released| ==> all[k].freed
        invariant forall k :: |released| <= k < |all| ==> !all[k].freed
        decreases |all| - |released|
      {
        assert all[|released|..] != [];
        assert b == all[|released|] && all[|released|..][1..] == all[|released| + 1..];
        var next := b.next;
        Release(b);
        released := released + [b];
        b := next;
      }
      head, blocks, live := null, [], [];
    }
  }

  /** `free`: a block may be handed back once. */
  method Release(b: Block)
    requires !b.freed
    modifies b`freed
    ensures b.freed
  {
    b.freed := true;
  }
}
