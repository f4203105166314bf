/** Machine integers of the C sources: unsigned widths, masks and shifts over `nat`; and counting. */
module Bits {
  const U32: nat := 0x1_0000_0000
  const U63: nat := 0x8000_0000_0000_0000
  const U64: nat := 0x1_0000_0000_0000_0000

  type byte = x: int | 0 <= x < 256
  type u32 = x: int | 0 <= x < U32
  type u64 = x: int | 0 <= x < U64

  function Pow2(k: nat): (r: nat)
    ensures r > 0
  {
    if k == 0 then 1 else 2 * Pow2(k - 1)
  }

  /** C's `a & b`, bit by bit. */
  function And(a: nat, b: nat): nat
    decreases a
  {
    if a == 0 then 0
    else 2 * And(a / 2, b / 2) + if a % 2 == 1 && b % 2 == 1 then 1 else 0
  }

  /** C's `a | b`, bit by bit. */
  function Or(a: nat, b: nat): nat
    decreases a + b
  {
    if a == 0 && b == 0 then 0
    else 2 * Or(a / 2, b / 2) + if a % 2 == 1 || b % 2 == 1 then 1 else 0
  }

  /** C's `a << k` on a value whose shifted bits stay in range. */
  function Shl(a: nat, k: nat): nat { a * Pow2(k) }

  /** Bit `i` of `x`. */
  predicate Bit(x: nat, i: nat) { x / Pow2(i) % 2 == 1 }

  lemma BitHalf(x: nat, i: nat)
    ensures Bit(x, i + 1) == Bit(x / 2, i) && Bit(x, 0) == (x % 2 == 1)
  {
    var p := Pow2(i);
    var q, r := x / 2 / p, x / 2 % p;
    assert x / 2 == q * p + r;
    assert x == q * (2 * p) + (2 * r + x % 2) by { assert 2 * (q * p) == q * (2 * p); }
    ModUnique(x, 2 * p, q, 2 * r + x % 2);
  }

  /** Bit `i` of a conjunction is set exactly where both are. */
  lemma {:induction false} AndBit(a: nat, b: nat, i: nat)
    ensures Bit(And(a, b), i) <==> Bit(a, i) && Bit(b, i)
    decreases i
  {
    hide Bit, Pow2;
    var c := And(a, b);
    assert c / 2 == And(a / 2, b / 2) && (c % 2 == 1 <==> a % 2 == 1 && b % 2 == 1) by { AndHalves(a, b); }
    if i == 0 {
      BitHalf(a, 0);
      BitHalf(b, 0);
      BitHalf(c, 0);
    } else {
      AndBit(a / 2, b / 2, i - 1);
      BitHalf(a, i - 1);
      BitHalf(b, i - 1);
      BitHalf(c, i - 1);
    }
  }

  lemma AndHalves(a: nat, b: nat)
    ensures And(a, b) / 2 == And(a / 2, b / 2) && (And(a, b) % 2 == 1 <==> a % 2 == 1 && b % 2 == 1)
  {
    if a / 2 == 0 { assert And(0, b / 2) == 0; }
  }

  /** A number below 2^n is its low n bits. */
  lemma {:induction false} BitsTell(x: nat, y: nat, n: nat)
    requires x < Pow2(n) && y < Pow2(n) && forall i: nat :: i < n ==> Bit(x, i) == Bit(y, i)
    ensures x == y
    decreases n
  {
    hide Bit;
    if n > 0 {
      BitHalf(x, 0);
      BitHalf(y, 0);
      forall i: nat | i < n - 1
        ensures Bit(x / 2, i) == Bit(y / 2, i)
      {
        BitHalf(x, i);
        BitHalf(y, i);
      }
      BitsTell(x / 2, y / 2, n - 1);
    }
  }

  /** Two bytes are the same exactly when their eight bits are. */
  lemma ByteBits(x: byte, y: byte)
    ensures x == y <==> forall i: nat :: i < 8 ==> Bit(x, i) == Bit(y, i)
  {
    assert Pow2(4) == 16 && Pow2(8) == 256;
    hide Bit, Pow2;
    if forall i: nat :: i < 8 ==> Bit(x, i) == Bit(y, i) { BitsTell(x, y, 8); }
  }

  /** Masking with 2^k - 1 keeps the low k bits: the reason a power-of-two capacity indexes by a mask. */
  lemma {:induction false} MaskIsMod(h: nat, k: nat, m: nat)
    requires m == Pow2(k)
    ensures And(h, m - 1) == h % m
    decreases k
  {
    if k == 0 {
      AndZero(h);
    } else {
      var p := Pow2(k - 1);
      MaskIsMod(h / 2, k - 1, p);
      MaskStep(h, p);
    }
  }

  lemma MaskStep(h: nat, p: nat)
    requires p > 0 && And(h / 2, p - 1) == h / 2 % p
    ensures And(h, 2 * p - 1) == h % (2 * p)
  {
    assert (2 * p - 1) / 2 == p - 1 && (2 * p - 1) % 2 == 1;
    ModHalves(h, p);
  }

  lemma {:induction false} AndZero(h: nat)
    ensures And(h, 0) == 0
    decreases h
  {
    if h > 0 { AndZero(h / 2); }
  }

  lemma ModHalves(h: nat, p: nat)
    requires p > 0
    ensures h % (2 * p) == 2 * (h / 2 % p) + h % 2
  {
    var q, r := h / 2 / p, h / 2 % p;
    assert h / 2 == q * p + r;
    assert h == q * (2 * p) + (2 * r + h % 2) by { assert 2 * (q * p) == q * (2 * p); }
    ModUnique(h, 2 * p, q, 2 * r + h % 2);
  }

  lemma ModUnique(x: int, m: int, q: int, r: int)
    requires m > 0 && x == q * m + r && 0 <= r < m
    ensures x % m == r && x / m == q
  {
    var q', r' := x / m, x % m;
    assert x == q' * m + r';
    SmallMultiple(q - q', m, r' - r) by { assert (q - q') * m == q * m - q' * m; }
  }

  lemma SmallMultiple(d: int, m: int, t: int)
    requires m > 0 && d * m == t && -m < t < m
    ensures d == 0
  {
    if d >= 1 { MulMonotone(d, m); }
    if d <= -1 {
      assert (-d) * m == -(d * m);
      MulMonotone(-d, m);
    }
  }

  lemma {:induction false} MulMonotone(d: int, m: int)
    requires d >= 1 && m > 0
    ensures d * m >= m
    decreases d
  {
    if d > 1 {
      MulMonotone(d - 1, m);
      assert d * m == (d - 1) * m + m;
    }
  }

  /** A field shifted above the bits of `lo` is joined by `|` without overlap. */
  lemma {:induction false} OrIsSum(hi: nat, k: nat, lo: nat)
    requires lo < Pow2(k)
    ensures Or(Shl(hi, k), lo) == Shl(hi, k) + lo
    decreases k
  {
    if k == 0 {
      OrZero(hi);
    } else {
      var p := Pow2(k - 1);
      assert hi * Pow2(k) == 2 * (hi * p);
      OrIsSum(hi, k - 1, lo / 2);
      assert (hi * Pow2(k)) / 2 == Shl(hi, k - 1);
    }
  }

  lemma {:induction false} OrZero(a: nat)
    ensures Or(a, 0) == a
    decreases a
  {
    if a > 0 { OrZero(a / 2); }
  }

  lemma {:induction false} SubsetSize<T>(a: set<T>, b: set<T>)
    requires a <= b
    ensures |a| <= |b|
    decreases a
  {
    if x :| x in a { SubsetSize(a - {x}, b - {x}); }
  }
}
