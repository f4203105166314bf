/** The words of SHA-256 and the functions of section 4.1.2 of FIPS 180-4 on them (shared/sha256.c). */
module Sha256Functions {
  type word = bv32

  /** Addition modulo 2^32. */
  function Plus(x: word, y: word): word { x + y }
  function Sum4(a: word, b: word, c: word, d: word): word { a + b + c + d }

  // Each operation under a name of its own: a proof about several then need not look inside.
  function Xor(x: word, y: word): word { x ^ y }
  function And(x: word, y: word): word { x & y }
  function Not(x: word): word { !x }
  function Right2(x: word): word { x.RotateRight(2) }
  function Right6(x: word): word { x.RotateRight(6) }
  function Right7(x: word): word { x.RotateRight(7) }
  function Right11(x: word): word { x.RotateRight(11) }
  function Right13(x: word): word { x.RotateRight(13) }
  function Right17(x: word): word { x.RotateRight(17) }
  function Right18(x: word): word { x.RotateRight(18) }
  function Right19(x: word): word { x.RotateRight(19) }
  function Right22(x: word): word { x.RotateRight(22) }
  function Right25(x: word): word { x.RotateRight(25) }
  function Shift3(x: word): word { x >> 3 }
  function Shift10(x: word): word { x >> 10 }

  // ----- FIPS 180-4, section 4.1.2 -----

  function Ch(x: word, y: word, z: word): word { Xor(And(x, y), And(Not(x), z)) }
  function Maj(x: word, y: word, z: word): word { Xor(Xor(And(x, y), And(x, z)), And(y, z)) }
  function BigSigma0(x: word): word { Xor(Xor(Right2(x), Right13(x)), Right22(x)) }
  function BigSigma1(x: word): word { Xor(Xor(Right6(x), Right11(x)), Right25(x)) }
  function Sigma0(x: word): word { Xor(Xor(Right7(x), Right18(x)), Shift3(x)) }
  function Sigma1(x: word): word { Xor(Xor(Right17(x), Right19(x)), Shift10(x)) }

  // ----- the six functions, bit by bit -----

  /** Bit `i` of a word. */
  function BitAt(x: word, i: bv32): bv1
    requires i < 32
  {
    ((x >> i) & 1) as bv1
  }

  /** The bit `n` places above bit `i`, around the end; and without going around. */
  function Around(x: word, i: bv32, n: bv32): bv1 { BitAt(x, (i + n) & 31) }

  function Above(x: word, i: bv32, n: bv32): bv1 { if i + n < 32 then BitAt(x, i + n) else 0 }

  lemma XorBits(x: word, y: word, i: bv32)
    requires i < 32
    ensures BitAt(Xor(x, y), i) == BitAt(x, i) ^ BitAt(y, i)
  {
  }

  lemma AndBits(x: word, y: word, i: bv32)
    requires i < 32
    ensures BitAt(And(x, y), i) == BitAt(x, i) & BitAt(y, i)
  {
  }

  lemma NotBits(x: word, i: bv32)
    requires i < 32
    ensures BitAt(Not(x), i) == !BitAt(x, i)
  {
  }

  lemma Turn2(x: word, i: bv32)
    requires i < 32
    ensures BitAt(Right2(x), i) == Around(x, i, 2)
  {
  }

  lemma Turn6(x: word, i: bv32)
    requires i < 32
    ensures BitAt(Right6(x), i) == Around(x, i, 6)
  {
  }

  lemma Turn7(x: word, i: bv32)
    requires i < 32
    ensures BitAt(Right7(x), i) == Around(x, i, 7)
  {
  }

  lemma Turn11(x: word, i: bv32)
    requires i < 32
    ensures BitAt(Right11(x), i) == Around(x, i, 11)
  {
  }

  lemma Turn13(x: word, i: bv32)
    requires i < 32
    ensures BitAt(Right13(x), i) == Around(x, i, 13)
  {
  }

  lemma Turn17(x: word, i: bv32)
    requires i < 32
    ensures BitAt(Right17(x), i) == Around(x, i, 17)
  {
  }

  lemma Turn18(x: word, i: bv32)
    requires i < 32
    ensures BitAt(Right18(x), i) == Around(x, i, 18)
  {
  }

  lemma Turn19(x: word, i: bv32)
    requires i < 32
    ensures BitAt(Right19(x), i) == Around(x, i, 19)
  {
  }

  lemma Turn22(x: word, i: bv32)
    requires i < 32
    ensures BitAt(Right22(x), i) == Around(x, i, 22)
  {
  }

  lemma Turn25(x: word, i: bv32)
    requires i < 32
    ensures BitAt(Right25(x), i) == Around(x, i, 25)
  {
  }

  lemma Down3(x: word, i: bv32)
    requires i < 32
    ensures BitAt(Shift3(x), i) == Above(x, i, 3)
  {
  }

  lemma Down10(x: word, i: bv32)
    requires i < 32
    ensures BitAt(Shift10(x), i) == Above(x, i, 10)
  {
  }

  lemma OneBits(a: bv1, b: bv1, c: bv1)
    ensures (a & b) ^ (!a & c) == if a == 1 then b else c
    ensures (a & b) ^ (a & c) ^ (b & c) == if a == b then a else c
  {
  }

  /** Each bit of Ch is y's where x's is set, and z's elsewhere. */
  lemma ChBits(x: word, y: word, z: word, i: bv32)
    requires i < 32
    ensures BitAt(Ch(x, y, z), i) == if BitAt(x, i) == 1 then BitAt(y, i) else BitAt(z, i)
  {
    hide BitAt, Xor, And, Not;
    XorBits(And(x, y), And(Not(x), z), i);
    AndBits(x, y, i);
    AndBits(Not(x), z, i);
    NotBits(x, i);
    OneBits(BitAt(x, i), BitAt(y, i), BitAt(z, i));
  }

  /** Each bit of Maj is the one that two of the three have. */
  lemma MajBits(x: word, y: word, z: word, i: bv32)
    requires i < 32
    ensures BitAt(Maj(x, y, z), i) == if BitAt(x, i) == BitAt(y, i) then BitAt(x, i) else BitAt(z, i)
  {
    hide BitAt, Xor, And;
    XorBits(And(x, y), And(x, z), i);
    XorBits(Xor(And(x, y), And(x, z)), And(y, z), i);
    AndBits(x, y, i);
    AndBits(x, z, i);
    AndBits(y, z, i);
    OneBits(BitAt(x, i), BitAt(y, i), BitAt(z, i));
  }

  /** Each bit of a sigma is the exclusive or of three bits of its word, here those 2, 13 and 22 places above it. */
  lemma BigSigma0Bits(x: word, i: bv32)
    requires i < 32
    ensures BitAt(BigSigma0(x), i) == Around(x, i, 2) ^ Around(x, i, 13) ^ Around(x, i, 22)
  {
    hide BitAt, Around, Above, Xor, Right2, Right13, Right22;
    Turn2(x, i);
    Turn13(x, i);
    Turn22(x, i);
    XorBits(Right2(x), Right13(x), i);
    XorBits(Xor(Right2(x), Right13(x)), Right22(x), i);
  }

  lemma BigSigma1Bits(x: word, i: bv32)
    requires i < 32
    ensures BitAt(BigSigma1(x), i) == Around(x, i, 6) ^ Around(x, i, 11) ^ Around(x, i, 25)
  {
    hide BitAt, Around, Above, Xor, Right6, Right11, Right25;
    Turn6(x, i);
    Turn11(x, i);
    Turn25(x, i);
    XorBits(Right6(x), Right11(x), i);
    XorBits(Xor(Right6(x), Right11(x)), Right25(x), i);
  }

  /** The last of these three is shifted: beyond the end there is no bit. */
  lemma Sigma0Bits(x: word, i: bv32)
    requires i < 32
    ensures BitAt(Sigma0(x), i) == Around(x, i, 7) ^ Around(x, i, 18) ^ Above(x, i, 3)
  {
    hide BitAt, Around, Above, Xor, Right7, Right18, Shift3;
    Turn7(x, i);
    Turn18(x, i);
    Down3(x, i);
    XorBits(Right7(x), Right18(x), i);
    XorBits(Xor(Right7(x), Right18(x)), Shift3(x), i);
  }

  lemma Sigma1Bits(x: word, i: bv32)
    requires i < 32
    ensures BitAt(Sigma1(x), i) == Around(x, i, 17) ^ Around(x, i, 19) ^ Above(x, i, 10)
  {
    hide BitAt, Around, Above, Xor, Right17, Right19, Shift10;
    Turn17(x, i);
    Turn19(x, i);
    Down10(x, i);
    XorBits(Right17(x), Right19(x), i);
    XorBits(Xor(Right17(x), Right19(x)), Shift10(x), i);
  }
}
