/** What rows count, without the keys and tallies that compute them: occurrences of a byte, of a byte pair, of a scalar
    value (analyze/count.c). */
module Counts {
  import opened Bits
  import opened Rows
  import opened KindBlock
  import opened Utf8
  import opened Shards

  /** How often `x` stands in `w`. */
  ghost function Times(w: seq<int>, x: int): nat { |set i: nat | i < |w| && w[i] == x| }

  /** How often `a` stands right before `b`. */
  ghost function PairTimes(w: seq<byte>, a: byte, b: byte): nat {
    |set i: nat | i < |w| && PairAt(w, i, a, b)|
  }

  predicate PairAt(w: seq<byte>, i: nat, a: byte, b: byte) { i + 1 < |w| && w[i] == a && w[i + 1] == b }

  /** The rows of kind `k` count the window: each byte, each adjacent pair, or each scalar value that the window encodes
      as RFC 3629 says. A key that stands for none of these has no row. */
  ghost predicate RowsCount(k: Kind, rows: Rows, w: seq<byte>) {
    match k
    case Freq =>
      (forall b: byte :: Get(rows, b) == Wrap(Times(w, b))) && forall key: nat :: key >= 256 ==> Get(rows, key) == 0
    case Bigram =>
      (forall a: byte, b: byte :: PairRow(rows, w, a, b)) && forall key: nat :: key >= 65536 ==> Get(rows, key) == 0
    case Cpfreq =>
      Utf8Octets(w) &&
      forall cs: seq<Scalar> :: Encode(cs) == w ==> forall key: nat :: Get(rows, key) == Wrap(Times(cs, key))
  }

  ghost predicate PairRow(rows: Rows, w: seq<byte>, a: byte, b: byte) {
    Get(rows, 256 * a as int + b) == Wrap(PairTimes(w, a, b))
  }

  // ----- occurrences -----

  lemma {:induction false} TimesIs(w: seq<nat>, x: nat)
    ensures Times(w, x) == Occurs(w, x)
    decreases |w|
  {
    var s := set i: nat | i < |w| && w[i] == x;
    if w == [] {
      assert s == {};
    } else {
      var n := |w| - 1;
      var init := w[..n];
      TimesIs(init, x);
      OccursSnoc(init, w[n], x);
      assert w == init + [w[n]];
      var t := set i: nat | i < |init| && init[i] == x;
      assert n !in t;
      assert s == if w[n] == x then t + {n} else t;
    }
  }

  lemma PairTimesIs(w: seq<byte>, a: byte, b: byte)
    ensures PairTimes(w, a, b) == Times(PairKeys(w), 256 * a as int + b)
  {
    var keys, key := PairKeys(w), 256 * a as int + b;
    var s, t := set i: nat | i < |w| && PairAt(w, i, a, b), set i: nat | i < |keys| && keys[i] == key;
    forall i: nat
      ensures i in s <==> i in t
    {
      if i + 1 < |w| { PairDigits(w[i], w[i + 1], a, b); }
    }
    assert s == t;
  }

  lemma PairDigits(x: byte, y: byte, a: byte, b: byte)
    ensures PairKey(x, y) == 256 * a as int + b <==> x == a && y == b
  {
  }

  /** The keys that are tallied for a window. */
  function KeysIn(k: Kind, w: seq<byte>): seq<nat> {
    match k
    case Freq => w
    case Bigram => PairKeys(w)
    case Cpfreq => Decode(w).scalars
  }

  // ----- rows that count a window are its tally -----

  lemma TallyTimes(keys: seq<nat>, key: nat)
    ensures Get(Tally(keys), key) == Wrap(Times(keys, key))
  {
    TallyCounts(keys, key);
    TimesIs(keys, key);
  }

  lemma NoneAbove(keys: seq<nat>, key: nat)
    requires key !in keys
    ensures Times(keys, key) == 0
  {
    assert (set i: nat | i < |keys| && keys[i] == key) == {};
  }

  /** Rows count a window, a decodable one for scalar values, exactly when they are the tally of its keys. */
  lemma CountsIff(k: Kind, rows: Rows, w: seq<byte>)
    ensures RowsCount(k, rows, w) <==> (k == Cpfreq ==> Utf8Octets(w)) && rows == Tally(KeysIn(k, w))
  {
    match k {
      case Freq => FreqIff(rows, w);
      case Bigram => PairsIff(rows, w);
      case Cpfreq => ScalarsIff(rows, w);
    }
  }

  lemma FreqIff(rows: Rows, w: seq<byte>)
    ensures RowsCount(Freq, rows, w) <==> rows == Tally(w)
  {
    hide Tally, Times, Get, Wrap;
    forall key: nat
      ensures Get(Tally(w), key) == Wrap(Times(w, key)) && (key >= 256 ==> Times(w, key) == 0)
    {
      TallyTimes(w, key);
      if key >= 256 { NoneAbove(w, key); }
    }
    WrapZero();
    if RowsCount(Freq, rows, w) {
      forall key: nat
        ensures Get(rows, key) == Get(Tally(w), key)
      {
        if key < 256 { var b: byte := key; assert Get(rows, b) == Wrap(Times(w, b)); }
      }
      Extensional(rows, Tally(w));
    }
  }

  lemma WrapZero()
    ensures Wrap(0) == 0
  {
  }

  lemma PairsIff(rows: Rows, w: seq<byte>)
    ensures RowsCount(Bigram, rows, w) <==> rows == Tally(PairKeys(w))
  {
    hide Tally, Times, PairTimes, Get, Wrap, PairKeys;
    var keys := PairKeys(w);
    forall key: nat
      ensures Get(Tally(keys), key) == Wrap(Times(keys, key)) && (key >= 65536 ==> Times(keys, key) == 0)
    {
      TallyTimes(keys, key);
      if key >= 65536 {
        PairsBelow(w, key);
        NoneAbove(keys, key);
      }
    }
    WrapZero();
    forall a: byte, b: byte
      ensures PairRow(rows, w, a, b) <==> Get(rows, 256 * a as int + b) == Get(Tally(keys), 256 * a as int + b)
    {
      PairTimesIs(w, a, b);
    }
    if RowsCount(Bigram, rows, w) {
      forall key: nat
        ensures Get(rows, key) == Get(Tally(keys), key)
      {
        if key < 65536 {
          var a: byte, b: byte := key / 256, key % 256;
          assert PairRow(rows, w, a, b) && 256 * a as int + b == key;
        }
      }
      Extensional(rows, Tally(keys));
    }
  }

  lemma PairsBelow(w: seq<byte>, key: nat)
    requires key >= 65536
    ensures key !in PairKeys(w)
  {
  }

  lemma ScalarsIff(rows: Rows, w: seq<byte>)
    ensures RowsCount(Cpfreq, rows, w) <==> Utf8Octets(w) && rows == Tally(Decode(w).scalars)
  {
    hide Tally, Times, Get, Wrap, Decode, Encode, Utf8Octets;
    if Utf8Octets(w) {
      var cs := Decode(w).scalars;
      DecodedIs(w);
      forall key: nat
        ensures Get(Tally(cs), key) == Wrap(Times(cs, key))
      {
        TallyTimes(cs, key);
      }
      if RowsCount(Cpfreq, rows, w) {
        forall key: nat
          ensures Get(rows, key) == Get(Tally(cs), key)
        {
          assert Get(rows, key) == Wrap(Times(cs, key));
        }
        Extensional(rows, Tally(cs));
      }
    }
  }

  /** A well-formed window encodes one sequence of scalar values. */
  lemma DecodedIs(w: seq<byte>)
    requires Utf8Octets(w)
    ensures Encode(Decode(w).scalars) == w && forall cs: seq<Scalar> :: Encode(cs) == w ==> cs == Decode(w).scalars
  {
    hide Decode, Encode;
    ValidIffGrammar(w);
    DecodeSound(w);
    assert w[..|w|] == w;
    forall cs: seq<Scalar> | Encode(cs) == w
      ensures cs == Decode(w).scalars
    {
      DecodeEncode(cs);
    }
  }
}
