/** The digest of one message, as FIPS 180-4 publishes it, round by round (shared/sha256.c). */
module Sha256Facts {
  import opened Bits
  import opened Sha256Functions
  import opened Sha256

  // ----- the message `abc` -----

  const ABC: seq<byte> := [0x61, 0x62, 0x63]

  /** Its one block: the message, a one bit, and the length 24 in the last byte. */
  const BLOCK: seq<byte> :=
    [0x61, 0x62, 0x63, 0x80] + Zeros(52) + [0, 0, 0, 0, 0, 0, 0, 24]

  lemma AbcPadded()
    ensures |BLOCK| == 64 && Padded(ABC) == BLOCK && Digest(ABC) == Compress(Initial(), BLOCK)
  {
    hide Compress, Initial;
    assert ZeroBytes(3) == 52;
    LengthBytes();
    assert Padded(ABC) == BLOCK;
    HashNone(BLOCK);
    HashNext(BLOCK, 0);
    assert BlockAt(BLOCK, 0) == BLOCK;
  }

  lemma LengthBytes()
    ensures BigEndian(24, 8) == [0, 0, 0, 0, 0, 0, 0, 24]
  {
    assert BigEndian(0, 3) == [0, 0, 0];
    assert BigEndian(0, 5) == [0, 0, 0, 0, 0];
    assert BigEndian(0, 7) == [0, 0, 0, 0, 0, 0, 0];
  }

  /** The schedule from sixteen of its words on. */
  lemma WNext(t: nat)
    requires 16 <= t < 64 && |BLOCK| == 64
    ensures W(BLOCK, t) == Sum4(Sigma1(W(BLOCK, t - 2)), W(BLOCK, t - 7), Sigma0(W(BLOCK, t - 15)), W(BLOCK, t - 16))
  {
    hide Sum4, Sigma0, Sigma1;
  }

  /** One round, on the variables one by one. */
  lemma NextRound(t: nat, v: Vars, w: word)
    requires t < 64 && |BLOCK| == 64 && Rounds(VarsOf(Initial()), BLOCK, t) == v && W(BLOCK, t) == w
    ensures Rounds(VarsOf(Initial()), BLOCK, t + 1) == Round(v, K(t), w)
  {
    hide W, K, Round, Initial;
    RoundsStep(VarsOf(Initial()), BLOCK, t);
  }

  ghost predicate After(t: nat, v: Vars)
    requires t <= 64
  {
    |BLOCK| == 64 && Rounds(VarsOf(Initial()), BLOCK, t) == v
  }

  ghost predicate Word(t: nat, w: word) { |BLOCK| == 64 && W(BLOCK, t) == w }

  lemma Octets()
    ensures Octet(0) == 0 && Octet(24) == 24
    ensures Octet(0x61) == 0x61 && Octet(0x62) == 0x62 && Octet(0x63) == 0x63 && Octet(0x80) == 0x80
  {
  }

  lemma Joins()
    ensures Join(0, 0, 0, 0) == 0 && Join(0, 0, 0, 24) == 24 && Join(0x61, 0x62, 0x63, 0x80) == 0x61626380
  {
  }

  lemma FirstWords()
    requires |BLOCK| == 64
    ensures Word(0, 0x61626380)
    ensures Word(1, 0x00000000)
    ensures Word(2, 0x00000000)
    ensures Word(3, 0x00000000)
    ensures Word(4, 0x00000000)
    ensures Word(5, 0x00000000)
    ensures Word(6, 0x00000000)
    ensures Word(7, 0x00000000)
    ensures Word(8, 0x00000000)
    ensures Word(9, 0x00000000)
    ensures Word(10, 0x00000000)
    ensures Word(11, 0x00000000)
    ensures Word(12, 0x00000000)
    ensures Word(13, 0x00000000)
    ensures Word(14, 0x00000000)
    ensures Word(15, 0x00000018)
  {
    assert forall i :: 4 <= i < 63 ==> BLOCK[i] == 0;
    Octets();
    Joins();
    hide Sum4, Sigma0, Sigma1, Octet, Join;
    forall t: nat | t < 16
      ensures W(BLOCK, t) == WordAt(BLOCK, 4 * t)
    {
    }
    assert Word(0, 0x61626380) && Word(15, 24);
    forall t: nat | 1 <= t < 15
      ensures Word(t, 0)
    {
    }
  }

  lemma Words16()
    requires |BLOCK| == 64
    requires Word(0, 0x61626380)
    requires Word(1, 0x00000000)
    requires Word(2, 0x00000000)
    requires Word(3, 0x00000000)
    requires Word(4, 0x00000000)
    requires Word(5, 0x00000000)
    requires Word(6, 0x00000000)
    requires Word(7, 0x00000000)
    requires Word(8, 0x00000000)
    requires Word(9, 0x00000000)
    requires Word(10, 0x00000000)
    requires Word(11, 0x00000000)
    requires Word(12, 0x00000000)
    requires Word(13, 0x00000000)
    requires Word(14, 0x00000000)
    requires Word(15, 0x00000018)
    ensures Word(16, 0x61626380)
    ensures Word(17, 0x000f0000)
    ensures Word(18, 0x7da86405)
    ensures Word(19, 0x600003c6)
    ensures Word(20, 0x3e9d7b78)
    ensures Word(21, 0x0183fc00)
    ensures Word(22, 0x12dcbfdb)
    ensures Word(23, 0xe2e2c38e)
  {
    hide W;
    WNext(16);
    WNext(17);
    WNext(18);
    WNext(19);
    WNext(20);
    WNext(21);
    WNext(22);
    WNext(23);
  }

  lemma Words24()
    requires |BLOCK| == 64
    requires Word(8, 0x00000000)
    requires Word(9, 0x00000000)
    requires Word(10, 0x00000000)
    requires Word(11, 0x00000000)
    requires Word(12, 0x00000000)
    requires Word(13, 0x00000000)
    requires Word(14, 0x00000000)
    requires Word(15, 0x00000018)
    requires Word(16, 0x61626380)
    requires Word(17, 0x000f0000)
    requires Word(18, 0x7da86405)
    requires Word(19, 0x600003c6)
    requires Word(20, 0x3e9d7b78)
    requires Word(21, 0x0183fc00)
    requires Word(22, 0x12dcbfdb)
    requires Word(23, 0xe2e2c38e)
    ensures Word(24, 0xc8215c1a)
    ensures Word(25, 0xb73679a2)
    ensures Word(26, 0xe5bc3909)
    ensures Word(27, 0x32663c5b)
    ensures Word(28, 0x9d209d67)
    ensures Word(29, 0xec8726cb)
    ensures Word(30, 0x702138a4)
    ensures Word(31, 0xd3b7973b)
  {
    hide W;
    WNext(24);
    WNext(25);
    WNext(26);
    WNext(27);
    WNext(28);
    WNext(29);
    WNext(30);
    WNext(31);
  }

  lemma Words32()
    requires |BLOCK| == 64
    requires Word(16, 0x61626380)
    requires Word(17, 0x000f0000)
    requires Word(18, 0x7da86405)
    requires Word(19, 0x600003c6)
    requires Word(20, 0x3e9d7b78)
    requires Word(21, 0x0183fc00)
    requires Word(22, 0x12dcbfdb)
    requires Word(23, 0xe2e2c38e)
    requires Word(24, 0xc8215c1a)
    requires Word(25, 0xb73679a2)
    requires Word(26, 0xe5bc3909)
    requires Word(27, 0x32663c5b)
    requires Word(28, 0x9d209d67)
    requires Word(29, 0xec8726cb)
    requires Word(30, 0x702138a4)
    requires Word(31, 0xd3b7973b)
    ensures Word(32, 0x93f5997f)
    ensures Word(33, 0x3b68ba73)
    ensures Word(34, 0xaff4ffc1)
    ensures Word(35, 0xf10a5c62)
    ensures Word(36, 0x0a8b3996)
    ensures Word(37, 0x72af830a)
    ensures Word(38, 0x9409e33e)
    ensures Word(39, 0x24641522)
  {
    hide W;
    WNext(32);
    WNext(33);
    WNext(34);
    WNext(35);
    WNext(36);
    WNext(37);
    WNext(38);
    WNext(39);
  }

  lemma Words40()
    requires |BLOCK| == 64
    requires Word(24, 0xc8215c1a)
    requires Word(25, 0xb73679a2)
    requires Word(26, 0xe5bc3909)
    requires Word(27, 0x32663c5b)
    requires Word(28, 0x9d209d67)
    requires Word(29, 0xec8726cb)
    requires Word(30, 0x702138a4)
    requires Word(31, 0xd3b7973b)
    requires Word(32, 0x93f5997f)
    requires Word(33, 0x3b68ba73)
    requires Word(34, 0xaff4ffc1)
    requires Word(35, 0xf10a5c62)
    requires Word(36, 0x0a8b3996)
    requires Word(37, 0x72af830a)
    requires Word(38, 0x9409e33e)
    requires Word(39, 0x24641522)
    ensures Word(40, 0x9f47bf94)
    ensures Word(41, 0xf0a64f5a)
    ensures Word(42, 0x3e246a79)
    ensures Word(43, 0x27333ba3)
    ensures Word(44, 0x0c4763f2)
    ensures Word(45, 0x840abf27)
    ensures Word(46, 0x7a290d5d)
    ensures Word(47, 0x065c43da)
  {
    hide W;
    WNext(40);
    WNext(41);
    WNext(42);
    WNext(43);
    WNext(44);
    WNext(45);
    WNext(46);
    WNext(47);
  }

  lemma Words48()
    requires |BLOCK| == 64
    requires Word(32, 0x93f5997f)
    requires Word(33, 0x3b68ba73)
    requires Word(34, 0xaff4ffc1)
    requires Word(35, 0xf10a5c62)
    requires Word(36, 0x0a8b3996)
    requires Word(37, 0x72af830a)
    requires Word(38, 0x9409e33e)
    requires Word(39, 0x24641522)
    requires Word(40, 0x9f47bf94)
    requires Word(41, 0xf0a64f5a)
    requires Word(42, 0x3e246a79)
    requires Word(43, 0x27333ba3)
    requires Word(44, 0x0c4763f2)
    requires Word(45, 0x840abf27)
    requires Word(46, 0x7a290d5d)
    requires Word(47, 0x065c43da)
    ensures Word(48, 0xfb3e89cb)
    ensures Word(49, 0xcc7617db)
    ensures Word(50, 0xb9e66c34)
    ensures Word(51, 0xa9993667)
    ensures Word(52, 0x84badedd)
    ensures Word(53, 0xc21462bc)
    ensures Word(54, 0x1487472c)
    ensures Word(55, 0xb20f7a99)
  {
    hide W;
    WNext(48);
    WNext(49);
    WNext(50);
    WNext(51);
    WNext(52);
    WNext(53);
    WNext(54);
    WNext(55);
  }

  lemma Words56()
    requires |BLOCK| == 64
    requires Word(40, 0x9f47bf94)
    requires Word(41, 0xf0a64f5a)
    requires Word(42, 0x3e246a79)
    requires Word(43, 0x27333ba3)
    requires Word(44, 0x0c4763f2)
    requires Word(45, 0x840abf27)
    requires Word(46, 0x7a290d5d)
    requires Word(47, 0x065c43da)
    requires Word(48, 0xfb3e89cb)
    requires Word(49, 0xcc7617db)
    requires Word(50, 0xb9e66c34)
    requires Word(51, 0xa9993667)
    requires Word(52, 0x84badedd)
    requires Word(53, 0xc21462bc)
    requires Word(54, 0x1487472c)
    requires Word(55, 0xb20f7a99)
    ensures Word(56, 0xef57b9cd)
    ensures Word(57, 0xebe6b238)
    ensures Word(58, 0x9fe3095e)
    ensures Word(59, 0x78bc8d4b)
    ensures Word(60, 0xa43fcf15)
    ensures Word(61, 0x668b2ff8)
    ensures Word(62, 0xeeaba2cc)
    ensures Word(63, 0x12b1edeb)
  {
    hide W;
    WNext(56);
    WNext(57);
    WNext(58);
    WNext(59);
    WNext(60);
    WNext(61);
    WNext(62);
    WNext(63);
  }

  lemma Rounds0()
    requires After(0, Vars(0x6a09e667, 0xbb67ae85, 0x3c6ef372, 0xa54ff53a, 0x510e527f, 0x9b05688c, 0x1f83d9ab, 0x5be0cd19))
    requires Word(0, 0x61626380)
    requires Word(1, 0x00000000)
    requires Word(2, 0x00000000)
    requires Word(3, 0x00000000)
    ensures After(4, Vars(0xd550f666, 0xc8c347a7, 0x5a6ad9ad, 0x5d6aebcd, 0x24e00850, 0xf92939eb, 0x78ce7989, 0xfa2a4622))
  {
    hide W, Rounds;
    NextRound(0, Vars(0x6a09e667, 0xbb67ae85, 0x3c6ef372, 0xa54ff53a, 0x510e527f, 0x9b05688c, 0x1f83d9ab, 0x5be0cd19), 0x61626380);
    NextRound(1, Vars(0x5d6aebcd, 0x6a09e667, 0xbb67ae85, 0x3c6ef372, 0xfa2a4622, 0x510e527f, 0x9b05688c, 0x1f83d9ab), 0x00000000);
    NextRound(2, Vars(0x5a6ad9ad, 0x5d6aebcd, 0x6a09e667, 0xbb67ae85, 0x78ce7989, 0xfa2a4622, 0x510e527f, 0x9b05688c), 0x00000000);
    NextRound(3, Vars(0xc8c347a7, 0x5a6ad9ad, 0x5d6aebcd, 0x6a09e667, 0xf92939eb, 0x78ce7989, 0xfa2a4622, 0x510e527f), 0x00000000);
  }

  lemma Rounds4()
    requires After(4, Vars(0xd550f666, 0xc8c347a7, 0x5a6ad9ad, 0x5d6aebcd, 0x24e00850, 0xf92939eb, 0x78ce7989, 0xfa2a4622))
    requires Word(4, 0x00000000)
    requires Word(5, 0x00000000)
    requires Word(6, 0x00000000)
    requires Word(7, 0x00000000)
    ensures After(8, Vars(0x85a07b5f, 0xe5030380, 0x2b4209f5, 0x04409a6a, 0x0c657a79, 0x9b27a401, 0x714260ad, 0x43ada245))
  {
    hide W, Rounds;
    NextRound(4, Vars(0xd550f666, 0xc8c347a7, 0x5a6ad9ad, 0x5d6aebcd, 0x24e00850, 0xf92939eb, 0x78ce7989, 0xfa2a4622), 0x00000000);
    NextRound(5, Vars(0x04409a6a, 0xd550f666, 0xc8c347a7, 0x5a6ad9ad, 0x43ada245, 0x24e00850, 0xf92939eb, 0x78ce7989), 0x00000000);
    NextRound(6, Vars(0x2b4209f5, 0x04409a6a, 0xd550f666, 0xc8c347a7, 0x714260ad, 0x43ada245, 0x24e00850, 0xf92939eb), 0x00000000);
    NextRound(7, Vars(0xe5030380, 0x2b4209f5, 0x04409a6a, 0xd550f666, 0x9b27a401, 0x714260ad, 0x43ada245, 0x24e00850), 0x00000000);
  }

  lemma Rounds8()
    requires After(8, Vars(0x85a07b5f, 0xe5030380, 0x2b4209f5, 0x04409a6a, 0x0c657a79, 0x9b27a401, 0x714260ad, 0x43ada245))
    requires Word(8, 0x00000000)
    requires Word(9, 0x00000000)
    requires Word(10, 0x00000000)
    requires Word(11, 0x00000000)
    ensures After(12, Vars(0xf71fc5a9, 0x4798a3f4, 0x8c87346b, 0x8e04ecb9, 0x816fd6e9, 0x436b23e8, 0x1cc92596, 0x32ca2d8c))
  {
    hide W, Rounds;
    NextRound(8, Vars(0x85a07b5f, 0xe5030380, 0x2b4209f5, 0x04409a6a, 0x0c657a79, 0x9b27a401, 0x714260ad, 0x43ada245), 0x00000000);
    NextRound(9, Vars(0x8e04ecb9, 0x85a07b5f, 0xe5030380, 0x2b4209f5, 0x32ca2d8c, 0x0c657a79, 0x9b27a401, 0x714260ad), 0x00000000);
    NextRound(10, Vars(0x8c87346b, 0x8e04ecb9, 0x85a07b5f, 0xe5030380, 0x1cc92596, 0x32ca2d8c, 0x0c657a79, 0x9b27a401), 0x00000000);
    NextRound(11, Vars(0x4798a3f4, 0x8c87346b, 0x8e04ecb9, 0x85a07b5f, 0x436b23e8, 0x1cc92596, 0x32ca2d8c, 0x0c657a79), 0x00000000);
  }

  lemma Rounds12()
    requires After(12, Vars(0xf71fc5a9, 0x4798a3f4, 0x8c87346b, 0x8e04ecb9, 0x816fd6e9, 0x436b23e8, 0x1cc92596, 0x32ca2d8c))
    requires Word(12, 0x00000000)
    requires Word(13, 0x00000000)
    requires Word(14, 0x00000000)
    requires Word(15, 0x00000018)
    ensures After(16, Vars(0xb0fa238e, 0xc0645fde, 0xd932eb16, 0x87912990, 0x07590dcd, 0x0b92f20c, 0x745a48de, 0x1e578218))
  {
    hide W, Rounds;
    NextRound(12, Vars(0xf71fc5a9, 0x4798a3f4, 0x8c87346b, 0x8e04ecb9, 0x816fd6e9, 0x436b23e8, 0x1cc92596, 0x32ca2d8c), 0x00000000);
    NextRound(13, Vars(0x87912990, 0xf71fc5a9, 0x4798a3f4, 0x8c87346b, 0x1e578218, 0x816fd6e9, 0x436b23e8, 0x1cc92596), 0x00000000);
    NextRound(14, Vars(0xd932eb16, 0x87912990, 0xf71fc5a9, 0x4798a3f4, 0x745a48de, 0x1e578218, 0x816fd6e9, 0x436b23e8), 0x00000000);
    NextRound(15, Vars(0xc0645fde, 0xd932eb16, 0x87912990, 0xf71fc5a9, 0x0b92f20c, 0x745a48de, 0x1e578218, 0x816fd6e9), 0x00000018);
  }

  lemma Rounds16()
    requires After(16, Vars(0xb0fa238e, 0xc0645fde, 0xd932eb16, 0x87912990, 0x07590dcd, 0x0b92f20c, 0x745a48de, 0x1e578218))
    requires Word(16, 0x61626380)
    requires Word(17, 0x000f0000)
    requires Word(18, 0x7da86405)
    requires Word(19, 0x600003c6)
    ensures After(20, Vars(0xe1f20c33, 0xfe777bbf, 0xc2fbd9d1, 0x21da9a9b, 0xb0638179, 0xcc899961, 0x846ee454, 0x8034229c))
  {
    hide W, Rounds;
    NextRound(16, Vars(0xb0fa238e, 0xc0645fde, 0xd932eb16, 0x87912990, 0x07590dcd, 0x0b92f20c, 0x745a48de, 0x1e578218), 0x61626380);
    NextRound(17, Vars(0x21da9a9b, 0xb0fa238e, 0xc0645fde, 0xd932eb16, 0x8034229c, 0x07590dcd, 0x0b92f20c, 0x745a48de), 0x000f0000);
    NextRound(18, Vars(0xc2fbd9d1, 0x21da9a9b, 0xb0fa238e, 0xc0645fde, 0x846ee454, 0x8034229c, 0x07590dcd, 0x0b92f20c), 0x7da86405);
    NextRound(19, Vars(0xfe777bbf, 0xc2fbd9d1, 0x21da9a9b, 0xb0fa238e, 0xcc899961, 0x846ee454, 0x8034229c, 0x07590dcd), 0x600003c6);
  }

  lemma Rounds20()
    requires After(20, Vars(0xe1f20c33, 0xfe777bbf, 0xc2fbd9d1, 0x21da9a9b, 0xb0638179, 0xcc899961, 0x846ee454, 0x8034229c))
    requires Word(20, 0x3e9d7b78)
    requires Word(21, 0x0183fc00)
    requires Word(22, 0x12dcbfdb)
    requires Word(23, 0xe2e2c38e)
    ensures After(24, Vars(0xc5d53d8d, 0xa7a3623f, 0xc2606d6d, 0x9dc68b63, 0xaa47c347, 0x49f5114a, 0xe1257970, 0x8ada8930))
  {
    hide W, Rounds;
    NextRound(20, Vars(0xe1f20c33, 0xfe777bbf, 0xc2fbd9d1, 0x21da9a9b, 0xb0638179, 0xcc899961, 0x846ee454, 0x8034229c), 0x3e9d7b78);
    NextRound(21, Vars(0x9dc68b63, 0xe1f20c33, 0xfe777bbf, 0xc2fbd9d1, 0x8ada8930, 0xb0638179, 0xcc899961, 0x846ee454), 0x0183fc00);
    NextRound(22, Vars(0xc2606d6d, 0x9dc68b63, 0xe1f20c33, 0xfe777bbf, 0xe1257970, 0x8ada8930, 0xb0638179, 0xcc899961), 0x12dcbfdb);
    NextRound(23, Vars(0xa7a3623f, 0xc2606d6d, 0x9dc68b63, 0xe1f20c33, 0x49f5114a, 0xe1257970, 0x8ada8930, 0xb0638179), 0xe2e2c38e);
  }

  lemma Rounds24()
    requires After(24, Vars(0xc5d53d8d, 0xa7a3623f, 0xc2606d6d, 0x9dc68b63, 0xaa47c347, 0x49f5114a, 0xe1257970, 0x8ada8930))
    requires Word(24, 0xc8215c1a)
    requires Word(25, 0xb73679a2)
    requires Word(26, 0xe5bc3909)
    requires Word(27, 0x32663c5b)
    ensures After(28, Vars(0x77d37528, 0xb62ec4bc, 0xcde8037d, 0x1c2c2838, 0xedffbff8, 0xc74c6516, 0x14383d8e, 0x2823ef91))
  {
    hide W, Rounds;
    NextRound(24, Vars(0xc5d53d8d, 0xa7a3623f, 0xc2606d6d, 0x9dc68b63, 0xaa47c347, 0x49f5114a, 0xe1257970, 0x8ada8930), 0xc8215c1a);
    NextRound(25, Vars(0x1c2c2838, 0xc5d53d8d, 0xa7a3623f, 0xc2606d6d, 0x2823ef91, 0xaa47c347, 0x49f5114a, 0xe1257970), 0xb73679a2);
    NextRound(26, Vars(0xcde8037d, 0x1c2c2838, 0xc5d53d8d, 0xa7a3623f, 0x14383d8e, 0x2823ef91, 0xaa47c347, 0x49f5114a), 0xe5bc3909);
    NextRound(27, Vars(0xb62ec4bc, 0xcde8037d, 0x1c2c2838, 0xc5d53d8d, 0xc74c6516, 0x14383d8e, 0x2823ef91, 0xaa47c347), 0x32663c5b);
  }

  lemma Rounds28()
    requires After(28, Vars(0x77d37528, 0xb62ec4bc, 0xcde8037d, 0x1c2c2838, 0xedffbff8, 0xc74c6516, 0x14383d8e, 0x2823ef91))
    requires Word(28, 0x9d209d67)
    requires Word(29, 0xec8726cb)
    requires Word(30, 0x702138a4)
    requires Word(31, 0xd3b7973b)
    ensures After(32, Vars(0x73b33bf5, 0xea992a22, 0xa0060b30, 0x363482c9, 0xba591112, 0x0109ab3a, 0xade79437, 0x6112a3b7))
  {
    hide W, Rounds;
    NextRound(28, Vars(0x77d37528, 0xb62ec4bc, 0xcde8037d, 0x1c2c2838, 0xedffbff8, 0xc74c6516, 0x14383d8e, 0x2823ef91), 0x9d209d67);
    NextRound(29, Vars(0x363482c9, 0x77d37528, 0xb62ec4bc, 0xcde8037d, 0x6112a3b7, 0xedffbff8, 0xc74c6516, 0x14383d8e), 0xec8726cb);
    NextRound(30, Vars(0xa0060b30, 0x363482c9, 0x77d37528, 0xb62ec4bc, 0xade79437, 0x6112a3b7, 0xedffbff8, 0xc74c6516), 0x702138a4);
    NextRound(31, Vars(0xea992a22, 0xa0060b30, 0x363482c9, 0x77d37528, 0x0109ab3a, 0xade79437, 0x6112a3b7, 0xedffbff8), 0xd3b7973b);
  }

  lemma Rounds32()
    requires After(32, Vars(0x73b33bf5, 0xea992a22, 0xa0060b30, 0x363482c9, 0xba591112, 0x0109ab3a, 0xade79437, 0x6112a3b7))
    requires Word(32, 0x93f5997f)
    requires Word(33, 0x3b68ba73)
    requires Word(34, 0xaff4ffc1)
    requires Word(35, 0xf10a5c62)
    ensures After(36, Vars(0x65a0cfe4, 0xa9a7738c, 0xfe604df5, 0x98e12507, 0xf4b002d6, 0x085f3833, 0x59249dd3, 0x9cd9f5f6))
  {
    hide W, Rounds;
    NextRound(32, Vars(0x73b33bf5, 0xea992a22, 0xa0060b30, 0x363482c9, 0xba591112, 0x0109ab3a, 0xade79437, 0x6112a3b7), 0x93f5997f);
    NextRound(33, Vars(0x98e12507, 0x73b33bf5, 0xea992a22, 0xa0060b30, 0x9cd9f5f6, 0xba591112, 0x0109ab3a, 0xade79437), 0x3b68ba73);
    NextRound(34, Vars(0xfe604df5, 0x98e12507, 0x73b33bf5, 0xea992a22, 0x59249dd3, 0x9cd9f5f6, 0xba591112, 0x0109ab3a), 0xaff4ffc1);
    NextRound(35, Vars(0xa9a7738c, 0xfe604df5, 0x98e12507, 0x73b33bf5, 0x085f3833, 0x59249dd3, 0x9cd9f5f6, 0xba591112), 0xf10a5c62);
  }

  lemma Rounds36()
    requires After(36, Vars(0x65a0cfe4, 0xa9a7738c, 0xfe604df5, 0x98e12507, 0xf4b002d6, 0x085f3833, 0x59249dd3, 0x9cd9f5f6))
    requires Word(36, 0x0a8b3996)
    requires Word(37, 0x72af830a)
    requires Word(38, 0x9409e33e)
    requires Word(39, 0x24641522)
    ensures After(40, Vars(0x79ea687a, 0x6dc57a8a, 0x34df1604, 0x41a65cb1, 0x1efbc0a0, 0xf0781bc8, 0xa507a53d, 0x0772a26b))
  {
    hide W, Rounds;
    NextRound(36, Vars(0x65a0cfe4, 0xa9a7738c, 0xfe604df5, 0x98e12507, 0xf4b002d6, 0x085f3833, 0x59249dd3, 0x9cd9f5f6), 0x0a8b3996);
    NextRound(37, Vars(0x41a65cb1, 0x65a0cfe4, 0xa9a7738c, 0xfe604df5, 0x0772a26b, 0xf4b002d6, 0x085f3833, 0x59249dd3), 0x72af830a);
    NextRound(38, Vars(0x34df1604, 0x41a65cb1, 0x65a0cfe4, 0xa9a7738c, 0xa507a53d, 0x0772a26b, 0xf4b002d6, 0x085f3833), 0x9409e33e);
    NextRound(39, Vars(0x6dc57a8a, 0x34df1604, 0x41a65cb1, 0x65a0cfe4, 0xf0781bc8, 0xa507a53d, 0x0772a26b, 0xf4b002d6), 0x24641522);
  }

  lemma Rounds40()
    requires After(40, Vars(0x79ea687a, 0x6dc57a8a, 0x34df1604, 0x41a65cb1, 0x1efbc0a0, 0xf0781bc8, 0xa507a53d, 0x0772a26b))
    requires Word(40, 0x9f47bf94)
    requires Word(41, 0xf0a64f5a)
    requires Word(42, 0x3e246a79)
    requires Word(43, 0x27333ba3)
    ensures After(44, Vars(0x9d4baf93, 0x17aa0dfe, 0xdf46652f, 0xd6670766, 0xfda24c2e, 0xdecd4715, 0x838b2711, 0x26352d63))
  {
    hide W, Rounds;
    NextRound(40, Vars(0x79ea687a, 0x6dc57a8a, 0x34df1604, 0x41a65cb1, 0x1efbc0a0, 0xf0781bc8, 0xa507a53d, 0x0772a26b), 0x9f47bf94);
    NextRound(41, Vars(0xd6670766, 0x79ea687a, 0x6dc57a8a, 0x34df1604, 0x26352d63, 0x1efbc0a0, 0xf0781bc8, 0xa507a53d), 0xf0a64f5a);
    NextRound(42, Vars(0xdf46652f, 0xd6670766, 0x79ea687a, 0x6dc57a8a, 0x838b2711, 0x26352d63, 0x1efbc0a0, 0xf0781bc8), 0x3e246a79);
    NextRound(43, Vars(0x17aa0dfe, 0xdf46652f, 0xd6670766, 0x79ea687a, 0xdecd4715, 0x838b2711, 0x26352d63, 0x1efbc0a0), 0x27333ba3);
  }

  lemma Rounds44()
    requires After(44, Vars(0x9d4baf93, 0x17aa0dfe, 0xdf46652f, 0xd6670766, 0xfda24c2e, 0xdecd4715, 0x838b2711, 0x26352d63))
    requires Word(44, 0x0c4763f2)
    requires Word(45, 0x840abf27)
    requires Word(46, 0x7a290d5d)
    requires Word(47, 0x065c43da)
    ensures After(48, Vars(0x4172328d, 0xa14c14b0, 0x72ab4b91, 0x26628815, 0xfecf0bc6, 0xd57b94a9, 0xb7755da1, 0xa80f11f0))
  {
    hide W, Rounds;
    NextRound(44, Vars(0x9d4baf93, 0x17aa0dfe, 0xdf46652f, 0xd6670766, 0xfda24c2e, 0xdecd4715, 0x838b2711, 0x26352d63), 0x0c4763f2);
    NextRound(45, Vars(0x26628815, 0x9d4baf93, 0x17aa0dfe, 0xdf46652f, 0xa80f11f0, 0xfda24c2e, 0xdecd4715, 0x838b2711), 0x840abf27);
    NextRound(46, Vars(0x72ab4b91, 0x26628815, 0x9d4baf93, 0x17aa0dfe, 0xb7755da1, 0xa80f11f0, 0xfda24c2e, 0xdecd4715), 0x7a290d5d);
    NextRound(47, Vars(0xa14c14b0, 0x72ab4b91, 0x26628815, 0x9d4baf93, 0xd57b94a9, 0xb7755da1, 0xa80f11f0, 0xfda24c2e), 0x065c43da);
  }

  lemma Rounds48()
    requires After(48, Vars(0x4172328d, 0xa14c14b0, 0x72ab4b91, 0x26628815, 0xfecf0bc6, 0xd57b94a9, 0xb7755da1, 0xa80f11f0))
    requires Word(48, 0xfb3e89cb)
    requires Word(49, 0xcc7617db)
    requires Word(50, 0xb9e66c34)
    requires Word(51, 0xa9993667)
    ensures After(52, Vars(0x886e7a22, 0x7a0508a1, 0xf11bfaa8, 0x05757ceb, 0x49231c1e, 0x52f1ccf7, 0x6e5c390c, 0xbd714038))
  {
    hide W, Rounds;
    NextRound(48, Vars(0x4172328d, 0xa14c14b0, 0x72ab4b91, 0x26628815, 0xfecf0bc6, 0xd57b94a9, 0xb7755da1, 0xa80f11f0), 0xfb3e89cb);
    NextRound(49, Vars(0x05757ceb, 0x4172328d, 0xa14c14b0, 0x72ab4b91, 0xbd714038, 0xfecf0bc6, 0xd57b94a9, 0xb7755da1), 0xcc7617db);
    NextRound(50, Vars(0xf11bfaa8, 0x05757ceb, 0x4172328d, 0xa14c14b0, 0x6e5c390c, 0xbd714038, 0xfecf0bc6, 0xd57b94a9), 0xb9e66c34);
    NextRound(51, Vars(0x7a0508a1, 0xf11bfaa8, 0x05757ceb, 0x4172328d, 0x52f1ccf7, 0x6e5c390c, 0xbd714038, 0xfecf0bc6), 0xa9993667);
  }

  lemma Rounds52()
    requires After(52, Vars(0x886e7a22, 0x7a0508a1, 0xf11bfaa8, 0x05757ceb, 0x49231c1e, 0x52f1ccf7, 0x6e5c390c, 0xbd714038))
    requires Word(52, 0x84badedd)
    requires Word(53, 0xc21462bc)
    requires Word(54, 0x1487472c)
    requires Word(55, 0xb20f7a99)
    ensures After(56, Vars(0x38cc9913, 0x3ec45cdb, 0xf5702fdb, 0x101fd28f, 0x54cb266b, 0xe50e1b4f, 0x9f4787c3, 0x529e7d00))
  {
    hide W, Rounds;
    NextRound(52, Vars(0x886e7a22, 0x7a0508a1, 0xf11bfaa8, 0x05757ceb, 0x49231c1e, 0x52f1ccf7, 0x6e5c390c, 0xbd714038), 0x84badedd);
    NextRound(53, Vars(0x101fd28f, 0x886e7a22, 0x7a0508a1, 0xf11bfaa8, 0x529e7d00, 0x49231c1e, 0x52f1ccf7, 0x6e5c390c), 0xc21462bc);
    NextRound(54, Vars(0xf5702fdb, 0x101fd28f, 0x886e7a22, 0x7a0508a1, 0x9f4787c3, 0x529e7d00, 0x49231c1e, 0x52f1ccf7), 0x1487472c);
    NextRound(55, Vars(0x3ec45cdb, 0xf5702fdb, 0x101fd28f, 0x886e7a22, 0xe50e1b4f, 0x9f4787c3, 0x529e7d00, 0x49231c1e), 0xb20f7a99);
  }

  lemma Rounds56()
    requires After(56, Vars(0x38cc9913, 0x3ec45cdb, 0xf5702fdb, 0x101fd28f, 0x54cb266b, 0xe50e1b4f, 0x9f4787c3, 0x529e7d00))
    requires Word(56, 0xef57b9cd)
    requires Word(57, 0xebe6b238)
    requires Word(58, 0x9fe3095e)
    requires Word(59, 0x78bc8d4b)
    ensures After(60, Vars(0xb6ae8fff, 0xffb70472, 0xc062d46f, 0xfcd1887b, 0xb21bad3d, 0x6d83bfc6, 0x7e44008e, 0x9b5e906c))
  {
    hide W, Rounds;
    NextRound(56, Vars(0x38cc9913, 0x3ec45cdb, 0xf5702fdb, 0x101fd28f, 0x54cb266b, 0xe50e1b4f, 0x9f4787c3, 0x529e7d00), 0xef57b9cd);
    NextRound(57, Vars(0xfcd1887b, 0x38cc9913, 0x3ec45cdb, 0xf5702fdb, 0x9b5e906c, 0x54cb266b, 0xe50e1b4f, 0x9f4787c3), 0xebe6b238);
    NextRound(58, Vars(0xc062d46f, 0xfcd1887b, 0x38cc9913, 0x3ec45cdb, 0x7e44008e, 0x9b5e906c, 0x54cb266b, 0xe50e1b4f), 0x9fe3095e);
    NextRound(59, Vars(0xffb70472, 0xc062d46f, 0xfcd1887b, 0x38cc9913, 0x6d83bfc6, 0x7e44008e, 0x9b5e906c, 0x54cb266b), 0x78bc8d4b);
  }

  lemma Rounds60()
    requires After(60, Vars(0xb6ae8fff, 0xffb70472, 0xc062d46f, 0xfcd1887b, 0xb21bad3d, 0x6d83bfc6, 0x7e44008e, 0x9b5e906c))
    requires Word(60, 0xa43fcf15)
    requires Word(61, 0x668b2ff8)
    requires Word(62, 0xeeaba2cc)
    requires Word(63, 0x12b1edeb)
    ensures After(64, Vars(0x506e3058, 0xd39a2165, 0x04d24d6c, 0xb85e2ce9, 0x5ef50f24, 0xfb121210, 0x948d25b6, 0x961f4894))
  {
    hide W, Rounds;
    NextRound(60, Vars(0xb6ae8fff, 0xffb70472, 0xc062d46f, 0xfcd1887b, 0xb21bad3d, 0x6d83bfc6, 0x7e44008e, 0x9b5e906c), 0xa43fcf15);
    NextRound(61, Vars(0xb85e2ce9, 0xb6ae8fff, 0xffb70472, 0xc062d46f, 0x961f4894, 0xb21bad3d, 0x6d83bfc6, 0x7e44008e), 0x668b2ff8);
    NextRound(62, Vars(0x04d24d6c, 0xb85e2ce9, 0xb6ae8fff, 0xffb70472, 0x948d25b6, 0x961f4894, 0xb21bad3d, 0x6d83bfc6), 0xeeaba2cc);
    NextRound(63, Vars(0xd39a2165, 0x04d24d6c, 0xb85e2ce9, 0xb6ae8fff, 0xfb121210, 0x948d25b6, 0x961f4894, 0xb21bad3d), 0x12b1edeb);
  }

  lemma StartVars()
    requires |BLOCK| == 64
    ensures After(0, Vars(0x6a09e667, 0xbb67ae85, 0x3c6ef372, 0xa54ff53a, 0x510e527f, 0x9b05688c, 0x1f83d9ab, 0x5be0cd19))
  {
    hide W;
    RoundsStart(VarsOf(Initial()), BLOCK);
  }

  lemma AbcRounds()
    requires |BLOCK| == 64
    ensures After(64, Vars(0x506e3058, 0xd39a2165, 0x04d24d6c, 0xb85e2ce9, 0x5ef50f24, 0xfb121210, 0x948d25b6, 0x961f4894))
  {
    hide After, Word;
    FirstWords();
    Words16();
    Words24();
    Words32();
    Words40();
    Words48();
    Words56();
    StartVars();
    Rounds0();
    Rounds4();
    Rounds8();
    Rounds12();
    Rounds16();
    Rounds20();
    Rounds24();
    Rounds28();
    Rounds32();
    Rounds36();
    Rounds40();
    Rounds44();
    Rounds48();
    Rounds52();
    Rounds56();
    Rounds60();
  }

  lemma AbcWords()
    ensures Digest(ABC) == [0xba7816bf, 0x8f01cfea, 0x414140de, 0x5dae2223, 0xb00361a3, 0x96177a9c, 0xb410ff61, 0xf20015ad]
  {
    AbcPadded();
    AbcRounds();
    hide W, Rounds, Digest;
  }

  /** The known answer for the message `abc`. */
  lemma AbcDigest()
    ensures HexDigest(ABC) == "ba7816bf8f01cfea414140de5dae2223b00361a396177a9cb410ff61f20015ad"
  {
    AbcWords();
    Word0Text();
    Word1Text();
    Word2Text();
    Word3Text();
    Word4Text();
    Word5Text();
    Word6Text();
    Word7Text();
    var h := Digest(ABC);
    hide Digest, HexWord, HexWords;
    EightWords(h[0], h[1], h[2], h[3], h[4], h[5], h[6], h[7]);
    assert h == [h[0], h[1], h[2], h[3], h[4], h[5], h[6], h[7]];
    Joined();
  }

  lemma Joined()
    ensures "ba7816bf" + "8f01cfea" + "414140de" + "5dae2223" +
            "b00361a3" + "96177a9c" + "b410ff61" + "f20015ad" ==
            "ba7816bf8f01cfea414140de5dae2223b00361a396177a9cb410ff61f20015ad"
  {
    assert "ba7816bf" + "8f01cfea" == "ba7816bf8f01cfea";
    assert "ba7816bf8f01cfea" + "414140de" == "ba7816bf8f01cfea414140de";
    assert "ba7816bf8f01cfea414140de" + "5dae2223" == "ba7816bf8f01cfea414140de5dae2223";
    assert "ba7816bf8f01cfea414140de5dae2223" + "b00361a3" == "ba7816bf8f01cfea414140de5dae2223b00361a3";
    assert "ba7816bf8f01cfea414140de5dae2223b00361a3" + "96177a9c" == "ba7816bf8f01cfea414140de5dae2223b00361a396177a9c";
    assert "ba7816bf8f01cfea414140de5dae2223b00361a396177a9c" + "b410ff61" == "ba7816bf8f01cfea414140de5dae2223b00361a396177a9cb410ff61";
    assert "ba7816bf8f01cfea414140de5dae2223b00361a396177a9cb410ff61" + "f20015ad" == "ba7816bf8f01cfea414140de5dae2223b00361a396177a9cb410ff61f20015ad";
  }

  lemma Word0Text() ensures HexWord(0xba7816bf) == "ba7816bf" {}
  lemma Word1Text() ensures HexWord(0x8f01cfea) == "8f01cfea" {}
  lemma Word2Text() ensures HexWord(0x414140de) == "414140de" {}
  lemma Word3Text() ensures HexWord(0x5dae2223) == "5dae2223" {}
  lemma Word4Text() ensures HexWord(0xb00361a3) == "b00361a3" {}
  lemma Word5Text() ensures HexWord(0x96177a9c) == "96177a9c" {}
  lemma Word6Text() ensures HexWord(0xb410ff61) == "b410ff61" {}
  lemma Word7Text() ensures HexWord(0xf20015ad) == "f20015ad" {}

  lemma EightWords(a: word, b: word, c: word, d: word, e: word, f: word, g: word, h: word)
    ensures HexWords([a, b, c, d, e, f, g, h]) ==
      HexWord(a) + HexWord(b) + HexWord(c) + HexWord(d) + HexWord(e) + HexWord(f) + HexWord(g) + HexWord(h)
  {
    hide HexWord, HexWords;
    NoWords();
    WordMore([], a);
    WordMore([a], b);
    WordMore([a, b], c);
    WordMore([a, b, c], d);
    WordMore([a, b, c, d], e);
    WordMore([a, b, c, d, e], f);
    WordMore([a, b, c, d, e, f], g);
    WordMore([a, b, c, d, e, f, g], h);
    assert [] + [a] == [a] && [a] + [b] == [a, b] && [a, b] + [c] == [a, b, c] && [a, b, c] + [d] == [a, b, c, d];
    assert [a, b, c, d] + [e] == [a, b, c, d, e] && [a, b, c, d, e] + [f] == [a, b, c, d, e, f];
    assert [a, b, c, d, e, f] + [g] == [a, b, c, d, e, f, g];
    assert [a, b, c, d, e, f, g] + [h] == [a, b, c, d, e, f, g, h];
    assert "" + HexWord(a) == HexWord(a);
  }

  lemma NoWords()
    ensures HexWords([]) == ""
  {
  }

  lemma WordMore(s: seq<word>, x: word)
    ensures HexWords(s + [x]) == HexWords(s) + HexWord(x)
  {
    hide HexWord;
    assert (s + [x])[..|s|] == s;
  }
}
