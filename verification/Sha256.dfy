/** One-shot SHA-256 (shared/sha256.c) against FIPS 180-4. */
module Sha256 {
  import opened Bits
  import opened Sha256Functions

  // ----- FIPS 180-4, section 4.2.2 and 5.3.3: constants -----

  /** Row `q` of the table of section 4.2.2. */
  function KRow(q: nat): (r: seq<word>)
    requires q < 8
    ensures |r| == 8
  {
    match q
    case 0 => [0x428a2f98, 0x71374491, 0xb5c0fbcf, 0xe9b5dba5, 0x3956c25b, 0x59f111f1, 0x923f82a4, 0xab1c5ed5]
    case 1 => [0xd807aa98, 0x12835b01, 0x243185be, 0x550c7dc3, 0x72be5d74, 0x80deb1fe, 0x9bdc06a7, 0xc19bf174]
    case 2 => [0xe49b69c1, 0xefbe4786, 0x0fc19dc6, 0x240ca1cc, 0x2de92c6f, 0x4a7484aa, 0x5cb0a9dc, 0x76f988da]
    case 3 => [0x983e5152, 0xa831c66d, 0xb00327c8, 0xbf597fc7, 0xc6e00bf3, 0xd5a79147, 0x06ca6351, 0x14292967]
    case 4 => [0x27b70a85, 0x2e1b2138, 0x4d2c6dfc, 0x53380d13, 0x650a7354, 0x766a0abb, 0x81c2c92e, 0x92722c85]
    case 5 => [0xa2bfe8a1, 0xa81a664b, 0xc24b8b70, 0xc76c51a3, 0xd192e819, 0xd6990624, 0xf40e3585, 0x106aa070]
    case 6 => [0x19a4c116, 0x1e376c08, 0x2748774c, 0x34b0bcb5, 0x391c0cb3, 0x4ed8aa4a, 0x5b9cca4f, 0x682e6ff3]
    case _ => [0x748f82ee, 0x78a5636f, 0x84c87814, 0x8cc70208, 0x90befffa, 0xa4506ceb, 0xbef9a3f7, 0xc67178f2]
  }

  const IV: seq<word> := [0x6a09e667, 0xbb67ae85, 0x3c6ef372, 0xa54ff53a, 0x510e527f, 0x9b05688c, 0x1f83d9ab, 0x5be0cd19]

  /** The first 64 primes, eight to a row. */
  function PrimeRow(q: nat): (r: seq<int>)
    requires q < 8
    ensures |r| == 8
  {
    match q
    case 0 => [2, 3, 5, 7, 11, 13, 17, 19]
    case 1 => [23, 29, 31, 37, 41, 43, 47, 53]
    case 2 => [59, 61, 67, 71, 73, 79, 83, 89]
    case 3 => [97, 101, 103, 107, 109, 113, 127, 131]
    case 4 => [137, 139, 149, 151, 157, 163, 167, 173]
    case 5 => [179, 181, 191, 193, 197, 199, 211, 223]
    case 6 => [227, 229, 233, 239, 241, 251, 257, 263]
    case _ => [269, 271, 277, 281, 283, 293, 307, 311]
  }

  /** `k` is the first 32 bits of the fractional part of the cube root of `p`: with `c` the whole part, the root
      times 2^32 lies in [c * 2^32 + k, c * 2^32 + k + 1). */
  predicate CubeRootBits(p: int, c: int, k: int) {
    0 <= k < 0x1_0000_0000 && c * c * c <= p < (c + 1) * (c + 1) * (c + 1) &&
    var x := c * 0x1_0000_0000 + k;
    x * x * x <= p * 0x1_00000000_00000000_00000000 < (x + 1) * (x + 1) * (x + 1)
  }

  predicate SquareRootBits(p: int, c: int, k: int) {
    0 <= k < 0x1_0000_0000 && c * c <= p < (c + 1) * (c + 1) &&
    var x := c * 0x1_0000_0000 + k;
    x * x <= p * 0x1_00000000_00000000 < (x + 1) * (x + 1)
  }

  function CubeFloor(p: int): int {
    if p < 8 then 1 else if p < 27 then 2 else if p < 64 then 3 else if p < 125 then 4 else if p < 216 then 5 else 6
  }

  function SquareFloor(p: int): int { if p < 4 then 1 else if p < 9 then 2 else if p < 16 then 3 else 4 }

  predicate CubeRow(p: seq<int>, k: seq<word>)
    requires |p| == |k| == 8
  {
    CubeHalf(p, k, 0) && CubeHalf(p, k, 4)
  }

  predicate CubeHalf(p: seq<int>, k: seq<word>, i: nat)
    requires |p| == |k| == 8 && i < 5
  {
    CubeRootBits(p[i], CubeFloor(p[i]), k[i] as int) &&
    CubeRootBits(p[i + 1], CubeFloor(p[i + 1]), k[i + 1] as int) &&
    CubeRootBits(p[i + 2], CubeFloor(p[i + 2]), k[i + 2] as int) &&
    CubeRootBits(p[i + 3], CubeFloor(p[i + 3]), k[i + 3] as int)
  }

  predicate SquareRow(p: seq<int>, k: seq<word>)
    requires |p| == |k| == 8
  {
    SquareHalf(p, k, 0) && SquareHalf(p, k, 4)
  }

  predicate SquareHalf(p: seq<int>, k: seq<word>, i: nat)
    requires |p| == |k| == 8 && i < 5
  {
    SquareRootBits(p[i], SquareFloor(p[i]), k[i] as int) &&
    SquareRootBits(p[i + 1], SquareFloor(p[i + 1]), k[i + 1] as int) &&
    SquareRootBits(p[i + 2], SquareFloor(p[i + 2]), k[i + 2] as int) &&
    SquareRootBits(p[i + 3], SquareFloor(p[i + 3]), k[i + 3] as int)
  }

  lemma Row0a() ensures CubeHalf(PrimeRow(0), KRow(0), 0) {}
  lemma Row0b() ensures CubeHalf(PrimeRow(0), KRow(0), 4) {}
  lemma Row1a() ensures CubeHalf(PrimeRow(1), KRow(1), 0) {}
  lemma Row1b() ensures CubeHalf(PrimeRow(1), KRow(1), 4) {}
  lemma Row2a() ensures CubeHalf(PrimeRow(2), KRow(2), 0) {}
  lemma Row2b() ensures CubeHalf(PrimeRow(2), KRow(2), 4) {}
  lemma Row3a() ensures CubeHalf(PrimeRow(3), KRow(3), 0) {}
  lemma Row3b() ensures CubeHalf(PrimeRow(3), KRow(3), 4) {}
  lemma Row4a() ensures CubeHalf(PrimeRow(4), KRow(4), 0) {}
  lemma Row4b() ensures CubeHalf(PrimeRow(4), KRow(4), 4) {}
  lemma Row5a() ensures CubeHalf(PrimeRow(5), KRow(5), 0) {}
  lemma Row5b() ensures CubeHalf(PrimeRow(5), KRow(5), 4) {}
  lemma Row6a() ensures CubeHalf(PrimeRow(6), KRow(6), 0) {}
  lemma Row6b() ensures CubeHalf(PrimeRow(6), KRow(6), 4) {}
  lemma Row7a() ensures CubeHalf(PrimeRow(7), KRow(7), 0) {}
  lemma Row7b() ensures CubeHalf(PrimeRow(7), KRow(7), 4) {}

  lemma SquareRootsA() ensures SquareHalf(PrimeRow(0), IV, 0) {}
  lemma SquareRootsB() ensures SquareHalf(PrimeRow(0), IV, 4) {}

  lemma CubeRoots(q: nat)
    requires q < 8
    ensures CubeRow(PrimeRow(q), KRow(q))
  {
    hide CubeHalf, PrimeRow, KRow;
    match q
    case 0 => Row0a(); Row0b();
    case 1 => Row1a(); Row1b();
    case 2 => Row2a(); Row2b();
    case 3 => Row3a(); Row3b();
    case 4 => Row4a(); Row4b();
    case 5 => Row5a(); Row5b();
    case 6 => Row6a(); Row6b();
    case _ => Row7a(); Row7b();
  }

  /** The tables are what sections 4.2.2 and 5.3.3 define: the first 32 fractional bits of the cube roots of the
      first 64 primes and of the square roots of the first eight. */
  lemma ConstantsAreRoots()
    ensures forall q: nat :: q < 8 ==> CubeRow(PrimeRow(q), KRow(q))
    ensures SquareRow(PrimeRow(0), IV)
  {
    hide CubeRow, SquareHalf, PrimeRow, KRow;
    forall q: nat | q < 8
      ensures CubeRow(PrimeRow(q), KRow(q))
    {
      CubeRoots(q);
    }
    SquareRootsA();
    SquareRootsB();
  }

  // ----- section 5: padding and parsing -----

  /** The smallest number of zero bytes that ends the padded message 8 bytes short of a block. */
  function ZeroBytes(len: nat): (z: nat)
    ensures z < 64 && (len + 1 + z) % 64 == 56
  {
    if len % 64 < 56 then 55 - len % 64 else 119 - len % 64
  }

  /** The zero bits of the padding satisfy section 5.1.1's congruence and no smaller number does. */
  lemma PaddingIsLeast(len: nat, k: nat)
    ensures (8 * len + 1 + (7 + 8 * ZeroBytes(len))) % 512 == 448
    ensures (8 * len + 1 + k) % 512 == 448 ==> k >= 7 + 8 * ZeroBytes(len)
  {
    var z := ZeroBytes(len);
    var q := (len + 1 + z) / 64;
    assert 8 * len + 1 + (7 + 8 * z) == 512 * q + 448;
    ModUnique(8 * len + 1 + (7 + 8 * z), 512, q, 448);
    if k < 7 + 8 * z {
      var d := 7 + 8 * z - k;
      if d <= 448 {
        ModUnique(8 * len + 1 + k, 512, q, 448 - d);
      } else {
        ModUnique(8 * len + 1 + k, 512, q - 1, 960 - d);
      }
    }
  }

  /** `n` bytes, the most significant first. */
  function BigEndian(x: nat, n: nat): (r: seq<byte>)
    ensures |r| == n
  {
    if n == 0 then [] else BigEndian(x / 256, n - 1) + [x % 256]
  }

  function Zeros(n: nat): (r: seq<byte>)
    ensures |r| == n && forall i :: 0 <= i < n ==> r[i] == 0
  {
    seq(n, _ => 0)
  }

  /** Section 5.1.1 for a message of whole bytes. */
  function Padded(m: seq<byte>): seq<byte> { m + Padding(|m|) }

  /** A one bit, the zero bits and the 64-bit message length in bits. */
  function Padding(len: nat): (r: seq<byte>)
    ensures |r| == 1 + ZeroBytes(len) + 8
  {
    [0x80] + Zeros(ZeroBytes(len)) + BigEndian(8 * len, 8)
  }

  function Octet(x: byte): word { x as word }

  /** Four octets as a word, the first the most significant. */
  function Join(a: word, b: word, c: word, d: word): word { (a << 24) | (b << 16) | (c << 8) | d }

  function WordAt(b: seq<byte>, i: nat): word
    requires i + 4 <= |b|
  {
    Join(Octet(b[i]), Octet(b[i + 1]), Octet(b[i + 2]), Octet(b[i + 3]))
  }

  // ----- section 6.2.2: the hash computation -----

  /** The message schedule. */
  function W(block: seq<byte>, t: nat): word
    requires |block| == 64
  {
    if t < 16 then WordAt(block, 4 * t)
    else Sum4(Sigma1(W(block, t - 2)), W(block, t - 7), Sigma0(W(block, t - 15)), W(block, t - 16))
  }

  datatype Vars = Vars(a: word, b: word, c: word, d: word, e: word, f: word, g: word, h: word)

  function K(t: nat): word
    requires t < 64
  {
    KRow(t / 8)[t % 8]
  }

  function Round(v: Vars, k: word, w: word): Vars {
    var t1 := Plus(Plus(Plus(Plus(v.h, BigSigma1(v.e)), Ch(v.e, v.f, v.g)), k), w);
    var t2 := Plus(BigSigma0(v.a), Maj(v.a, v.b, v.c));
    Vars(Plus(t1, t2), v.a, v.b, v.c, Plus(v.d, t1), v.e, v.f, v.g)
  }

  function Rounds(v: Vars, block: seq<byte>, t: nat): Vars
    requires |block| == 64 && t <= 64
  {
    if t == 0 then v else Round(Rounds(v, block, t - 1), K(t - 1), W(block, t - 1))
  }

  function VarsOf(h: seq<word>): Vars
    requires |h| == 8
  {
    Vars(h[0], h[1], h[2], h[3], h[4], h[5], h[6], h[7])
  }

  function AddVars(h: seq<word>, v: Vars): seq<word>
    requires |h| == 8
  {
    [Plus(h[0], v.a), Plus(h[1], v.b), Plus(h[2], v.c), Plus(h[3], v.d),
     Plus(h[4], v.e), Plus(h[5], v.f), Plus(h[6], v.g), Plus(h[7], v.h)]
  }

  /** The intermediate hash value after one block. */
  function Compress(h: seq<word>, block: seq<byte>): (r: seq<word>)
    requires |h| == 8 && |block| == 64
    ensures |r| == 8
  {
    AddVars(h, Rounds(VarsOf(h), block, 64))
  }

  function Initial(): (r: seq<word>)
    ensures |r| == 8
  {
    IV
  }

  /** Block `i` of a message parsed into 64-byte blocks. */
  function BlockAt(m: seq<byte>, i: nat): (b: seq<byte>)
    requires 64 * i + 64 <= |m|
    ensures |b| == 64
  {
    m[64 * i..64 * i + 64]
  }

  /** The hash value after the first `n` blocks of `m`. */
  function HashBlocks(m: seq<byte>, n: nat): (r: seq<word>)
    requires 64 * n <= |m|
    ensures |r| == 8
  {
    if n == 0 then Initial() else Compress(HashBlocks(m, n - 1), BlockAt(m, n - 1))
  }

  function Digest(m: seq<byte>): (r: seq<word>)
    ensures |r| == 8
  {
    HashBlocks(Padded(m), |Padded(m)| / 64)
  }

  // ----- the program -----

  method Block(h: array<word>, block: seq<byte>)
    requires h.Length == 8 && |block| == 64
    modifies h
    ensures h[..] == Compress(old(h[..]), block)
  {
    hide Rounds, W, Plus, Ch, Maj, BigSigma0, BigSigma1, K, AddVars;
    var w := Schedule(block);
    var a, b, c, d := h[0], h[1], h[2], h[3];
    var e, f, g, hh := h[4], h[5], h[6], h[7];
    ghost var v0 := VarsOf(h[..]);
    RoundsStart(v0, block);
    for i := 0 to 64
      modifies {}
      invariant Vars(a, b, c, d, e, f, g, hh) == Rounds(v0, block, i)
    {
      RoundsStep(v0, block, i);
      var s1 := BigSigma1(e);
      var ch := Ch(e, f, g);
      var t1 := Plus(Plus(Plus(Plus(hh, s1), ch), K(i)), w[i]);
      var s0 := BigSigma0(a);
      var maj := Maj(a, b, c);
      var t2 := Plus(s0, maj);
      hh, g, f, e := g, f, e, Plus(d, t1);
      d, c, b, a := c, b, a, Plus(t1, t2);
    }
    assert h[..] == old(h[..]);
    AddInto(h, Vars(a, b, c, d, e, f, g, hh));
  }

  method AddInto(h: array<word>, v: Vars)
    requires h.Length == 8
    modifies h
    ensures h[..] == AddVars(old(h[..]), v)
  {
    hide Plus;
    AddFirst(h, v);
    h[4], h[5], h[6], h[7] := Plus(h[4], v.e), Plus(h[5], v.f), Plus(h[6], v.g), Plus(h[7], v.h);
  }

  method AddFirst(h: array<word>, v: Vars)
    requires h.Length == 8
    modifies h
    ensures h[0] == Plus(old(h[0]), v.a) && h[1] == Plus(old(h[1]), v.b)
    ensures h[2] == Plus(old(h[2]), v.c) && h[3] == Plus(old(h[3]), v.d)
    ensures h[4..] == old(h[4..])
  {
    hide Plus;
    h[0], h[1], h[2], h[3] := Plus(h[0], v.a), Plus(h[1], v.b), Plus(h[2], v.c), Plus(h[3], v.d);
  }

  lemma SumOrder(a: word, b: word, c: word, d: word)
    ensures Sum4(d, c, b, a) == Sum4(a, b, c, d)
  {
  }

  lemma RoundsStart(v: Vars, block: seq<byte>)
    requires |block| == 64
    ensures Rounds(v, block, 0) == v
  {
  }

  lemma RoundsStep(v: Vars, block: seq<byte>, t: nat)
    requires |block| == 64 && t < 64
    ensures Rounds(v, block, t + 1) == Round(Rounds(v, block, t), K(t), W(block, t))
  {
    hide Round, K, W;
  }

  method Schedule(block: seq<byte>) returns (w: array<word>)
    requires |block| == 64
    ensures fresh(w) && w.Length == 64 && forall j :: 0 <= j < 64 ==> w[j] == W(block, j)
  {
    hide WordAt, Sigma0, Sigma1, Sum4;
    w := new word[64];
    for i := 0 to 16
      invariant forall j :: 0 <= j < i ==> w[j] == W(block, j)
    {
      w[i] := WordAt(block, i * 4);
    }
    for i := 16 to 64
      invariant forall j :: 0 <= j < i ==> w[j] == W(block, j)
    {
      var s0 := Sigma0(w[i - 15]);
      var s1 := Sigma1(w[i - 2]);
      SumOrder(s1, w[i - 7], s0, w[i - 16]);
      w[i] := Sum4(w[i - 16], s0, w[i - 7], s1);
    }
  }

  // ----- the length field and the tail -----

  /** C's `x >> k`. */
  function Shr(x: nat, k: nat): nat
    decreases k
  {
    if k == 0 then x else Shr(x / 2, k - 1)
  }

  lemma {:induction false} ShrMore(x: nat, a: nat, b: nat)
    ensures Shr(x, a + b) == Shr(Shr(x, a), b)
    decreases a
  {
    if a > 0 { ShrMore(x / 2, a - 1, b); }
  }

  lemma ShrByte(x: nat)
    ensures Shr(x, 8) == x / 256
  {
    assert Shr(x, 4) == x / 16 && Shr(x / 16, 4) == x / 16 / 16;
    ShrMore(x, 4, 4);
  }

  lemma {:induction false} BigEndianByte(x: nat, n: nat, i: nat)
    requires i < n
    ensures BigEndian(x, n)[n - 1 - i] == Shr(x, 8 * i) % 256
    decreases n
  {
    if i > 0 {
      BigEndianByte(x / 256, n - 1, i - 1);
      ShrMore(x, 8, 8 * (i - 1));
      ShrByte(x);
    }
  }

  function BigValue(s: seq<byte>): nat {
    if s == [] then 0 else 256 * BigValue(s[..|s| - 1]) + s[|s| - 1] as int
  }

  function Pow256(n: nat): (r: nat)
    ensures r > 0
  {
    if n == 0 then 1 else 256 * Pow256(n - 1)
  }

  /** The length block is the 64-bit number of message bits, for every message section 5.1.1 allows. */
  lemma {:induction false} LengthBlock(x: nat, n: nat)
    requires x < Pow256(n)
    ensures BigValue(BigEndian(x, n)) == x
    decreases n
  {
    if n > 0 {
      LengthBlock(x / 256, n - 1);
      assert BigEndian(x, n)[..n - 1] == BigEndian(x / 256, n - 1);
    }
  }

  /** Fills the tail buffer: the rest of the message, 0x80, zeros and the bit length. */
  method Tail(data: seq<byte>, nblocks: nat) returns (tail: array<byte>, tailLen: nat)
    requires nblocks == |data| / 64 && |data| < U64
    ensures tail.Length == 128 && tailLen in {64, 128}
    ensures tail[..tailLen] == Padded(data)[64 * nblocks..]
  {
    var rem := |data| - nblocks * 64;
    tail := new byte[128](_ => 0);
    for i := 0 to rem
      invariant forall j :: 0 <= j < i ==> tail[j] == data[nblocks * 64 + j]
      invariant forall j :: i <= j < 128 ==> tail[j] == 0
    {
      tail[i] := data[nblocks * 64 + i];
    }
    tail[rem] := 0x80;
    tailLen := if rem < 56 then 64 else 128;
    var bitlen := (|data| * 8) % 0x1_0000_0000_0000_0000;
    for i := 0 to 8
      invariant forall j :: 0 <= j < rem ==> tail[j] == data[nblocks * 64 + j]
      invariant tail[rem] == 0x80
      invariant forall j :: rem < j < tailLen - i ==> tail[j] == 0
      invariant forall j :: 0 <= j < i ==> tail[tailLen - 1 - j] == Shr(bitlen, 8 * j) % 256
    {
      tail[tailLen - 1 - i] := Shr(bitlen, 8 * i) % 256;
    }
    TailIsPadding(data, nblocks, tail[..tailLen], bitlen);
  }

  lemma TailIsPadding(data: seq<byte>, nblocks: nat, tail: seq<byte>, bitlen: nat)
    requires nblocks == |data| / 64 && bitlen == (|data| * 8) % 0x1_0000_0000_0000_0000
    requires var rem := |data| - nblocks * 64;
      |tail| == (if rem < 56 then 64 else 128) &&
      (forall j :: 0 <= j < rem ==> tail[j] == data[nblocks * 64 + j]) && tail[rem] == 0x80 &&
      (forall j :: rem < j < |tail| - 8 ==> tail[j] == 0) &&
      (forall j :: 0 <= j < 8 ==> tail[|tail| - 1 - j] == Shr(bitlen, 8 * j) % 256)
    ensures tail == Padded(data)[64 * nblocks..]
  {
    hide Padded, BigEndian, Shr, ZeroBytes;
    var rem := |data| - nblocks * 64;
    var field := BigEndian(8 * |data|, 8);
    SameLowBytes(8 * |data|);
    forall j | 0 <= j < 8
      ensures tail[|tail| - 8..][j] == field[j]
    {
      BigEndianByte(bitlen, 8, 7 - j);
      assert tail[|tail| - 1 - (7 - j)] == Shr(bitlen, 8 * (7 - j)) % 256;
    }
    PaddedSuffix(data, nblocks);
    Concatenated(data[nblocks * 64..], Zeros(ZeroBytes(|data|)), field, tail);
  }

  lemma Concatenated(rest: seq<byte>, zeros: seq<byte>, field: seq<byte>, tail: seq<byte>)
    requires |tail| == |rest| + 1 + |zeros| + |field|
    requires (forall j :: 0 <= j < |rest| ==> tail[j] == rest[j]) && tail[|rest|] == 0x80
    requires forall j :: 0 <= j < |zeros| ==> tail[|rest| + 1 + j] == zeros[j]
    requires tail[|tail| - |field|..] == field
    ensures tail == rest + ([0x80] + zeros + field)
  {
    assert tail[..|rest|] == rest;
    assert tail[|rest| + 1..|rest| + 1 + |zeros|] == zeros;
  }

  lemma PaddedSuffix(data: seq<byte>, nblocks: nat)
    requires nblocks == |data| / 64
    ensures Padded(data)[64 * nblocks..] == data[nblocks * 64..] + Padding(|data|)
    ensures var rem := |data| - nblocks * 64;
      ZeroBytes(|data|) == (if rem < 56 then 64 else 128) - 8 - rem - 1
  {
    ZerosInTail(|data|, nblocks);
    hide Padding, ZeroBytes;
  }

  lemma ZerosInTail(len: nat, nblocks: nat)
    requires nblocks == len / 64
    ensures var rem := len - nblocks * 64; ZeroBytes(len) == (if rem < 56 then 64 else 128) - 8 - rem - 1
  {
  }

  lemma {:induction false} LowBytes(x: nat, y: nat, n: nat, m: nat)
    requires m == Pow256(n) && x % m == y % m
    ensures BigEndian(x, n) == BigEndian(y, n)
    decreases n
  {
    if n > 0 {
      var k := Pow256(n - 1);
      ModParts(x, k);
      ModParts(y, k);
      LowBytes(x / 256, y / 256, n - 1, k);
    }
  }

  lemma ModParts(x: nat, k: nat)
    requires k > 0
    ensures x % (256 * k) == 256 * (x / 256 % k) + x % 256
  {
    var q, r := x / 256 / k, x / 256 % k;
    assert x / 256 == q * k + r;
    assert x == q * (256 * k) + (256 * r + x % 256) by { assert 256 * (q * k) == q * (256 * k); }
    ModUnique(x, 256 * k, q, 256 * r + x % 256);
  }

  /** Reducing the bit length modulo 2^64 first does not change its 64-bit field. */
  lemma SameLowBytes(x: nat)
    ensures BigEndian(x, 8) == BigEndian(x % 0x1_0000_0000_0000_0000, 8)
  {
    assert Pow256(4) == 0x1_0000_0000;
    LowBytes(x, x % 0x1_0000_0000_0000_0000, 8, 0x1_0000_0000_0000_0000);
  }

  // ----- the hexadecimal text -----

  function HexDigit(x: word): char {
    var d := x & 0xF;
    if d == 0 then '0' else if d == 1 then '1' else if d == 2 then '2' else if d == 3 then '3'
    else if d == 4 then '4' else if d == 5 then '5' else if d == 6 then '6' else if d == 7 then '7'
    else if d == 8 then '8' else if d == 9 then '9' else if d == 10 then 'a' else if d == 11 then 'b'
    else if d == 12 then 'c' else if d == 13 then 'd' else if d == 14 then 'e' else 'f'
  }

  function DigitOf(c: char): word {
    if c == '0' then 0 else if c == '1' then 1 else if c == '2' then 2 else if c == '3' then 3
    else if c == '4' then 4 else if c == '5' then 5 else if c == '6' then 6 else if c == '7' then 7
    else if c == '8' then 8 else if c == '9' then 9 else if c == 'a' then 10 else if c == 'b' then 11
    else if c == 'c' then 12 else if c == 'd' then 13 else if c == 'e' then 14 else 15
  }

  lemma DigitBack(x: word)
    ensures DigitOf(HexDigit(x)) == x & 0xF
  {
  }

  function HexWord(x: word): (r: string)
    ensures |r| == 8
  {
    [HexDigit(x >> 28), HexDigit(x >> 24), HexDigit(x >> 20), HexDigit(x >> 16),
     HexDigit(x >> 12), HexDigit(x >> 8), HexDigit(x >> 4), HexDigit(x)]
  }

  function HexWords(h: seq<word>): (r: string)
    ensures |r| == 8 * |h|
  {
    if h == [] then [] else HexWords(h[..|h| - 1]) + HexWord(h[|h| - 1])
  }

  /** The digest as 64 lowercase hexadecimal digits. */
  function HexDigest(m: seq<byte>): (r: string)
    ensures |r| == 64
  {
    HexWords(Digest(m))
  }

  method Hash(data: seq<byte>) returns (h: array<word>)
    requires |data| < U64
    ensures fresh(h) && h[..] == Digest(data)
  {
    hide Compress, Padded, Padding, ZeroBytes, Initial, HashBlocks;
    h := new word[8](i requires 0 <= i < 8 => IV[i]);
    InitialWords(h[..]);
    var nblocks := |data| / 64;
    PaddedPrefix(data, nblocks);
    FullBlocks(h, data, nblocks, Padded(data));
    LastBlocks(h, data, nblocks, Padded(data));
  }

  method FullBlocks(h: array<word>, data: seq<byte>, nblocks: nat, ghost padded: seq<byte>)
    requires h.Length == 8 && h[..] == Initial() && 64 * nblocks <= |data| && 64 * nblocks <= |padded|
    requires forall i: nat :: i < nblocks ==> BlockAt(padded, i) == BlockAt(data, i)
    modifies h
    ensures h[..] == HashBlocks(padded, nblocks)
  {
    hide Compress, HashBlocks, BlockAt, Initial;
    HashNone(padded);
    for i := 0 to nblocks
      invariant h[..] == HashBlocks(padded, i)
    {
      HashNext(padded, i);
      Block(h, BlockAt(data, i));
    }
  }

  method LastBlocks(h: array<word>, data: seq<byte>, nblocks: nat, ghost padded: seq<byte>)
    requires |data| < U64 && nblocks == |data| / 64 && padded == Padded(data)
    requires h.Length == 8 && h[..] == HashBlocks(padded, nblocks)
    modifies h
    ensures h[..] == Digest(data)
  {
    hide Compress, Padded, Padding, ZeroBytes, HashBlocks, BlockAt;
    PaddedPrefix(data, nblocks);
    var tail, tailLen := Tail(data, nblocks);
    TailBlocks(padded, nblocks, tail[..tailLen]);
    HashNext(padded, nblocks);
    assert tail[..tailLen][..64] == tail[..64];
    Block(h, tail[..64]);
    if tailLen == 128 {
      HashNext(padded, nblocks + 1);
      assert tail[..tailLen][64..128] == tail[64..128];
      Block(h, tail[64..128]);
    }
  }

  lemma HashNone(m: seq<byte>)
    ensures HashBlocks(m, 0) == Initial()
  {
  }

  lemma HashNext(m: seq<byte>, n: nat)
    requires 64 * (n + 1) <= |m|
    ensures HashBlocks(m, n + 1) == Compress(HashBlocks(m, n), BlockAt(m, n))
  {
    hide Compress;
  }

  /** The values `hs` start with the initial words, and each block of the text takes one to the next. */
  ghost predicate Chain(hs: seq<seq<word>>, text: seq<byte>) {
    && |text| % 64 == 0 && |hs| == |text| / 64 + 1 && hs[0] == IV
    && forall i: nat :: i < |hs| - 1 ==> Link(hs, text, i)
  }

  predicate Link(hs: seq<seq<word>>, text: seq<byte>, i: nat)
    requires i + 1 < |hs| && 64 * i + 64 <= |text|
  {
    |hs[i]| == 8 && hs[i + 1] == Compress(hs[i], text[64 * i..64 * i + 64])
  }

  /** The digest is the last value of the chain over the padded message. */
  lemma DigestChain(m: seq<byte>)
    ensures exists hs :: Chain(hs, Padded(m)) && Digest(m) == hs[|hs| - 1]
  {
    WholeBlocks(|m|);
    hide HashBlocks, Padded, Chain;
    ChainOf(Padded(m));
  }

  lemma ChainOf(text: seq<byte>)
    requires |text| % 64 == 0
    ensures exists hs :: Chain(hs, text) && HashBlocks(text, |text| / 64) == hs[|hs| - 1]
  {
    hide Compress, HashBlocks, Initial, IV;
    var n := |text| / 64;
    var hs := seq(n + 1, i requires 0 <= i < n + 1 => HashBlocks(text, i));
    HashNone(text);
    InitialIs();
    forall i: nat | i < n
      ensures Link(hs, text, i)
    {
      ChainNext(text, i);
    }
    hide Link;
    assert Chain(hs, text);
  }

  lemma ChainNext(text: seq<byte>, i: nat)
    requires 64 * i + 64 <= |text|
    ensures HashBlocks(text, i + 1) == Compress(HashBlocks(text, i), text[64 * i..64 * i + 64])
  {
    HashNext(text, i);
    hide Compress, HashBlocks;
  }

  lemma InitialIs()
    ensures Initial() == IV
  {
  }

  lemma WholeBlocks(len: nat)
    ensures (len + (1 + ZeroBytes(len) + 8)) % 64 == 0
  {
  }

  lemma TailBlocks(padded: seq<byte>, n: nat, tail: seq<byte>)
    requires 64 * n <= |padded| && padded[64 * n..] == tail && |tail| in {64, 128}
    ensures |padded| / 64 == n + |tail| / 64
    ensures BlockAt(padded, n) == tail[..64]
    ensures |tail| == 128 ==> BlockAt(padded, n + 1) == tail[64..128]
  {
  }

  method Sha256Hex(data: seq<byte>) returns (out: string)
    requires |data| < U64
    ensures out == HexDigest(data)
  {
    hide HexWord, Digest;
    var h := Hash(data);
    out := "";
    for i := 0 to 8
      invariant out == HexWords(h[..i])
    {
      assert h[..i + 1][..i] == h[..i];
      out := out + HexWord(h[i]);
    }
    assert h[..8] == h[..];
  }

  lemma InitialWords(h: seq<word>)
    requires |h| == 8 && forall i :: 0 <= i < 8 ==> h[i] == IV[i]
    ensures h == Initial()
  {
  }

  lemma PaddedPrefix(data: seq<byte>, nblocks: nat)
    requires nblocks == |data| / 64
    ensures 64 * nblocks <= |data| <= |Padded(data)| && Padded(data)[..64 * nblocks] == data[..64 * nblocks]
    ensures |Padded(data)| / 64 == nblocks + if |data| - nblocks * 64 < 56 then 1 else 2
    ensures forall i: nat :: i < nblocks ==> BlockAt(Padded(data), i) == BlockAt(data, i)
  {
    ZerosInTail(|data|, nblocks);
    hide Padding, ZeroBytes;
  }
}
