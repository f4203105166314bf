/** The strict UTF-8 decoding loop and the encoding class of a window (analyze/count.c). */
module Decoder {
  import opened Bits
  import opened Rows
  import opened CpTable
  import opened Utf8

  lemma Powers()
    ensures Pow2(3) == 8 && Pow2(4) == 16 && Pow2(5) == 32 && Pow2(6) == 64
    ensures Pow2(12) == 4096 && Pow2(18) == 262144
  {
    assert Pow2(9) == 512;
    assert Pow2(15) == 32768;
  }

  /** The payload bits of a lead byte: `b & (2^k - 1)`. */
  lemma Payload(b: nat, k: nat, m: nat, marker: nat, q: nat)
    requires m == Pow2(k) && marker == q * m && marker <= b < marker + m
    ensures And(b, m - 1) == b - marker
  {
    hide And, Pow2;
    MaskIsMod(b, k, m);
    ModUnique(b, m, q, b - marker);
  }

  lemma Join2(b0: nat, b1: nat)
    requires 0xC0 <= b0 <= 0xDF && 0x80 <= b1 <= 0xBF
    ensures Or(Shl(And(b0, 0x1F), 6), And(b1, 0x3F)) == (b0 - 0xC0) * 64 + (b1 - 0x80)
  {
    hide Pow2, And, Or;
    Powers();
    Payload(b0, 5, 32, 0xC0, 6);
    Payload(b1, 6, 64, 0x80, 2);
    OrIsSum(b0 - 0xC0, 6, b1 - 0x80);
  }

  lemma Join3(b0: nat, b1: nat, b2: nat)
    requires 0xE0 <= b0 <= 0xEF && 0x80 <= b1 <= 0xBF && 0x80 <= b2 <= 0xBF
    ensures Or(Or(Shl(And(b0, 0x0F), 12), Shl(And(b1, 0x3F), 6)), And(b2, 0x3F))
      == ((b0 - 0xE0) * 64 + (b1 - 0x80)) * 64 + (b2 - 0x80)
  {
    hide Pow2, And, Or;
    Powers();
    Payload(b0, 4, 16, 0xE0, 14);
    Payload(b1, 6, 64, 0x80, 2);
    Payload(b2, 6, 64, 0x80, 2);
    OrIsSum(b0 - 0xE0, 12, (b1 - 0x80) * 64);
    OrIsSum((b0 - 0xE0) * 64 + (b1 - 0x80), 6, b2 - 0x80);
  }

  lemma Join4(b0: nat, b1: nat, b2: nat, b3: nat)
    requires 0xF0 <= b0 <= 0xF7 && 0x80 <= b1 <= 0xBF && 0x80 <= b2 <= 0xBF && 0x80 <= b3 <= 0xBF
    ensures Or(Or(Or(Shl(And(b0, 0x07), 18), Shl(And(b1, 0x3F), 12)), Shl(And(b2, 0x3F), 6)), And(b3, 0x3F))
      == (((b0 - 0xF0) * 64 + (b1 - 0x80)) * 64 + (b2 - 0x80)) * 64 + (b3 - 0x80)
  {
    hide Pow2, And, Or;
    Powers();
    Payload(b0, 3, 8, 0xF0, 30);
    Payload(b1, 6, 64, 0x80, 2);
    Payload(b2, 6, 64, 0x80, 2);
    Payload(b3, 6, 64, 0x80, 2);
    var x, y, z := b1 - 0x80, b2 - 0x80, b3 - 0x80;
    OrIsSum(b0 - 0xF0, 18, x * 4096);
    OrIsSum((b0 - 0xF0) * 64 + x, 12, y * 64);
    OrIsSum(((b0 - 0xF0) * 64 + x) * 64 + y, 6, z);
  }

  /** One turn of the decoding loop: the length and value of the character at offset `i`, or length 0 for the
      jump to the failure exit. */
  method DecodeOne(data: seq<byte>, i: nat) returns (n: nat, cp: nat)
    requires i < |data|
    ensures n == CharLen(data[i..])
    ensures n > 0 ==> cp == DecodeChar(data[i..][..n])
  {
    hide And, Or, Shl;
    var b0: int := data[i];
    ghost var s := data[i..];
    if b0 < 0x80 {
      assert s[..1] == [s[0]];
      return 1, b0;
    } else if 0xC2 <= b0 <= 0xDF {
      if i + 1 >= |data| { return 0, 0; }
      var b1: int := data[i + 1];
      if b1 < 0x80 || b1 > 0xBF { return 0, 0; }
      Join2(b0, b1);
      return 2, Or(Shl(And(b0, 0x1F), 6), And(b1, 0x3F));
    } else if 0xE0 <= b0 <= 0xEF {
      if i + 2 >= |data| { return 0, 0; }
      var b1: int, b2: int := data[i + 1], data[i + 2];
      var lo1, hi1 := 0x80, 0xBF;
      if b0 == 0xE0 { lo1, hi1 := 0xA0, 0xBF; }
      else if b0 == 0xED { lo1, hi1 := 0x80, 0x9F; }
      if b1 < lo1 || b1 > hi1 { return 0, 0; }
      if b2 < 0x80 || b2 > 0xBF { return 0, 0; }
      Join3(b0, b1, b2);
      return 3, Or(Or(Shl(And(b0, 0x0F), 12), Shl(And(b1, 0x3F), 6)), And(b2, 0x3F));
    } else if 0xF0 <= b0 <= 0xF4 {
      if i + 3 >= |data| { return 0, 0; }
      var b1: int, b2: int, b3: int := data[i + 1], data[i + 2], data[i + 3];
      var lo1, hi1 := 0x80, 0xBF;
      if b0 == 0xF0 { lo1, hi1 := 0x90, 0xBF; }
      else if b0 == 0xF4 { lo1, hi1 := 0x80, 0x8F; }
      if b1 < lo1 || b1 > hi1 { return 0, 0; }
      if b2 < 0x80 || b2 > 0xBF { return 0, 0; }
      if b3 < 0x80 || b3 > 0xBF { return 0, 0; }
      Join4(b0, b1, b2, b3);
      return 4, Or(Or(Or(Shl(And(b0, 0x07), 18), Shl(And(b1, 0x3F), 12)), Shl(And(b2, 0x3F), 6)), And(b3, 0x3F));
    } else {
      return 0, 0;
    }
  }

  /** Decodes strictly, counting each scalar value into `out` when it is given. It succeeds exactly on the
      strings of RFC 3629; on failure `bad` is the offset of the first ill-formed sequence. */
  method DecodeStrict(data: seq<byte>, out: Table?) returns (ok: bool, bad: nat)
    requires out != null ==> out.Valid()
    modifies if out == null then {} else {out, out.keys, out.counts}
    ensures ok <==> Utf8Octets(data)
    ensures bad == Decode(data).stop
    ensures out != null ==> out.Valid() && out.Rows() == Merge(old(out.Rows()), Tally(Decode(data).scalars))
    ensures out != null ==> (out.keys == old(out.keys) || fresh(out.keys))
    ensures out != null ==> (out.counts == old(out.counts) || fresh(out.counts))
  {
    hide CharLen, Decode, DecodeChar, Utf8Char, Merge, Tally, Add, Denoted, Table.Valid, Plus, Utf8Octets;
    ValidIffGrammar(data);
    ghost var done: seq<Scalar> := [];
    var i := 0;
    StartDecode(data);
    if out != null { TallyNone(out.Rows()); }
    while i < |data|
      invariant i <= |data| && Decode(data) == After(data, done, i)
      invariant out != null ==> out.Valid() && out.Rows() == Merge(old(out.Rows()), Tally(done))
      invariant out != null ==> (out.keys == old(out.keys) || fresh(out.keys))
      invariant out != null ==> (out.counts == old(out.counts) || fresh(out.counts))
    {
      var n, cp := DecodeOne(data, i);
      Advance(data, done, i);
      if n == 0 { return false, i; }
      if out != null {
        DenotedAdd(out.entries, cp, 1);
        TallySnoc(old(out.Rows()), done, cp);
        out.Add(cp, 1);
      }
      done := done + [DecodeChar(data[i..][..n])];
      i := i + n;
    }
    FinishDecode(data, done);
    return true, i;
  }

  /** The whole result, once `done` has been decoded from the first `i` bytes. */
  function After(data: seq<byte>, done: seq<Scalar>, i: nat): Decoded
    requires i <= |data|
  {
    Decoded(done + Decode(data[i..]).scalars, i + Decode(data[i..]).stop)
  }

  lemma StartDecode(data: seq<byte>)
    ensures Decode(data) == After(data, [], 0)
  {
    assert data[0..] == data;
  }

  lemma FinishDecode(data: seq<byte>, done: seq<Scalar>)
    ensures After(data, done, |data|) == Decoded(done, |data|)
  {
    assert done + [] == done;
  }

  lemma Advance(data: seq<byte>, done: seq<Scalar>, i: nat)
    requires i < |data|
    ensures var n := CharLen(data[i..]);
      After(data, done, i) ==
        if n == 0 then Decoded(done, i) else After(data, done + [DecodeChar(data[i..][..n])], i + n)
  {
    hide CharLen, DecodeChar, Utf8Char;
    var n := CharLen(data[i..]);
    if n == 0 {
      assert done + [] == done;
    } else {
      var c, rest := DecodeChar(data[i..][..n]), Decode(data[i + n..]);
      assert data[i..][n..] == data[i + n..];
      assert done + [c] + rest.scalars == done + ([c] + rest.scalars);
    }
  }

  lemma TallyNone(m: Rows)
    ensures Merge(m, Tally([])) == m
  {
    MergeUnit(m);
  }

  lemma TallySnoc(m: Rows, keys: seq<nat>, k: nat)
    ensures Add(Merge(m, Tally(keys)), k, 1) == Merge(m, Tally(keys + [k]))
  {
    hide Merge, Add;
    assert (keys + [k])[..|keys|] == keys;
    AddMerge(m, Tally(keys), k, 1);
  }

  // ----- the encoding class of a window -----

  predicate HighByte(s: seq<byte>) { exists i :: 0 <= i < |s| && s[i] >= 0x80 }

  function Classify(s: seq<byte>): string {
    if !Valid(s) then "bytes" else if HighByte(s) then "utf8" else "ascii"
  }

  method ClassifyEncoding(data: seq<byte>) returns (e: string)
    ensures e == Classify(data)
  {
    hide Utf8Octets, Decode;
    ValidIffGrammar(data);
    var ok, _ := DecodeStrict(data, null);
    if !ok { return "bytes"; }
    for i := 0 to |data|
      invariant forall j :: 0 <= j < i ==> data[j] < 0x80
    {
      if data[i] >= 0x80 { return "utf8"; }
    }
    return "ascii";
  }

  function EncRank(e: string): nat {
    if e == "ascii" then 0 else if e == "utf8" then 1 else 2
  }

  /** The lattice maximum of two classes; an absent class ("") is the other one. */
  function Combine(a: string, b: string): string {
    if a == "" then b else if b == "" then a else if EncRank(a) >= EncRank(b) then a else b
  }

  /** A cut at a character boundary: the class of the whole is the maximum of the classes of the halves. */
  lemma ClassifySplit(a: seq<byte>, b: seq<byte>)
    requires b == [] || !Cont(b[0])
    ensures Classify(a + b) == Combine(Classify(a), Classify(b))
  {
    hide Decode;
    DecodeSplit(a, b);
    HighSplit(a, b);
  }

  lemma HighSplit(a: seq<byte>, b: seq<byte>)
    ensures HighByte(a + b) <==> HighByte(a) || HighByte(b)
  {
    if i :| 0 <= i < |a| && a[i] >= 0x80 { assert (a + b)[i] == a[i]; }
    if i :| 0 <= i < |b| && b[i] >= 0x80 { assert (a + b)[|a| + i] == b[i]; }
  }
}
