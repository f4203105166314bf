/** Strict UTF-8 (analyze/count.c): the decoder's loop against RFC 3629. */
module Utf8 {
  import opened Bits

  predicate Cont(b: byte) { 0x80 <= b <= 0xBF }

  /** A Unicode scalar value: no surrogate. */
  type Scalar = c: int | 0 <= c < 0xD800 || 0xE000 <= c < 0x110000

  // ----- RFC 3629: the syntax of section 4, the encoding of section 3 -----

  /** One UTF8-char of the ABNF in RFC 3629, section 4. */
  predicate Utf8Char(s: seq<byte>) {
    (|s| == 1 && s[0] <= 0x7F) ||
    (|s| == 2 && 0xC2 <= s[0] <= 0xDF && Cont(s[1])) ||
    (|s| == 3 && Cont(s[2]) && (
      (s[0] == 0xE0 && 0xA0 <= s[1] <= 0xBF) || (0xE1 <= s[0] <= 0xEC && Cont(s[1])) ||
      (s[0] == 0xED && 0x80 <= s[1] <= 0x9F) || (0xEE <= s[0] <= 0xEF && Cont(s[1])))) ||
    (|s| == 4 && Cont(s[2]) && Cont(s[3]) && (
      (s[0] == 0xF0 && 0x90 <= s[1] <= 0xBF) || (0xF1 <= s[0] <= 0xF3 && Cont(s[1])) ||
      (s[0] == 0xF4 && 0x80 <= s[1] <= 0x8F)))
  }

  /** UTF8-octets = *( UTF8-char ). */
  ghost predicate Utf8Octets(s: seq<byte>)
    decreases |s|
  {
    s == [] || exists n: nat :: 1 <= n <= |s| && Utf8Char(s[..n]) && Utf8Octets(s[n..])
  }

  /** The octets of one scalar value, RFC 3629, section 3. */
  function EncodeChar(c: Scalar): seq<byte> {
    var n: int := c;
    if n < 0x80 then var b: byte := n; [b]
    else if n < 0x800 then Octets2(n / 64, n % 64)
    else if n < 0x10000 then Octets3(n / 64 / 64, n / 64 % 64, n % 64)
    else Octets4(n / 64 / 64 / 64, n / 64 / 64 % 64, n / 64 % 64, n % 64)
  }

  function Octets2(x: int, y: int): seq<byte>
    requires 0 <= x < 32 && 0 <= y < 64
  {
    var a: byte, b: byte := 0xC0 + x, 0x80 + y;
    [a, b]
  }

  function Octets3(x: int, y: int, z: int): seq<byte>
    requires 0 <= x < 16 && 0 <= y < 64 && 0 <= z < 64
  {
    var a: byte, b: byte, c: byte := 0xE0 + x, 0x80 + y, 0x80 + z;
    [a, b, c]
  }

  function Octets4(w: int, x: int, y: int, z: int): seq<byte>
    requires 0 <= w < 8 && 0 <= x < 64 && 0 <= y < 64 && 0 <= z < 64
  {
    var a: byte, b: byte, c: byte, d: byte := 0xF0 + w, 0x80 + x, 0x80 + y, 0x80 + z;
    [a, b, c, d]
  }

  function Encode(cs: seq<Scalar>): seq<byte> {
    if cs == [] then [] else EncodeChar(cs[0]) + Encode(cs[1..])
  }

  function DecodeChar(s: seq<byte>): (c: Scalar)
    requires Utf8Char(s)
  {
    var a: int := s[0];
    if |s| == 1 then a
    else
      var b: int := s[1];
      if |s| == 2 then (a - 0xC0) * 64 + (b - 0x80)
      else
        var c: int := s[2];
        if |s| == 3 then ((a - 0xE0) * 64 + (b - 0x80)) * 64 + (c - 0x80)
        else var d: int := s[3]; (((a - 0xF0) * 64 + (b - 0x80)) * 64 + (c - 0x80)) * 64 + (d - 0x80)
  }

  lemma CharRoundTrip(s: seq<byte>)
    requires Utf8Char(s)
    ensures EncodeChar(DecodeChar(s)) == s
  {
    if |s| == 2 {
      Div64(s[0] - 0xC0, s[1] - 0x80);
    } else if |s| == 3 {
      RoundTrip3(s);
    } else if |s| == 4 {
      RoundTrip4(s);
    }
  }

  lemma RoundTrip3(s: seq<byte>)
    requires |s| == 3 && Utf8Char(s)
    ensures EncodeChar(DecodeChar(s)) == s
  {
    var a: int, b: int := s[0] - 0xE0, s[1] - 0x80;
    var q := a * 64 + b;
    Div64(q, s[2] - 0x80);
    Div64(s[0] - 0xE0, s[1] - 0x80);
  }

  lemma RoundTrip4(s: seq<byte>)
    requires |s| == 4 && Utf8Char(s)
    ensures EncodeChar(DecodeChar(s)) == s
  {
    var a: int, b: int := s[0] - 0xF0, s[1] - 0x80;
    var q := a * 64 + b;
    Div64(q * 64 + (s[2] - 0x80), s[3] - 0x80);
    Div64(q, s[2] - 0x80);
    Div64(s[0] - 0xF0, s[1] - 0x80);
  }

  lemma Div64(q: int, r: int)
    requires 0 <= r < 64
    ensures (q * 64 + r) / 64 == q && (q * 64 + r) % 64 == r
  {
  }

  lemma EncodedIsChar(c: Scalar)
    ensures Utf8Char(EncodeChar(c)) && DecodeChar(EncodeChar(c)) == c
  {
    var n: int := c;
    if n < 0x80 {
    } else if n < 0x800 {
      assert Utf8Char(Octets2(n / 64, n % 64));
    } else if n < 0x10000 {
      assert Utf8Char(Octets3(n / 64 / 64, n / 64 % 64, n % 64));
    } else {
      assert Utf8Char(Octets4(n / 64 / 64 / 64, n / 64 / 64 % 64, n / 64 % 64, n % 64));
    }
  }

  /** The smaller byte where two strings first differ is the first one's. */
  ghost predicate Before(s: seq<byte>, t: seq<byte>) { exists i: nat :: DiffersAt(s, t, i) && s[i] < t[i] }

  predicate DiffersAt(s: seq<byte>, t: seq<byte>, i: nat) { i < |s| && i < |t| && s[..i] == t[..i] && s[i] != t[i] }

  /** The characters stand for all scalar values in the order of their bytes: with the round trips, there is no other such
      coding. */
  lemma CharsInOrder(s: seq<byte>, t: seq<byte>)
    requires Utf8Char(s) && Utf8Char(t)
    ensures DecodeChar(s) < DecodeChar(t) <==> Before(s, t)
  {
    CharsRise(s, t);
    CharsRise(t, s);
    if s != t {
      FirstDifference(s, t);
      var i :| DiffersAt(s, t, i);
      assert DiffersAt(t, s, i);
      hide Utf8Char, DecodeChar;
      assert Before(s, t) || Before(t, s);
    }
  }

  lemma FirstDifference(s: seq<byte>, t: seq<byte>)
    requires Utf8Char(s) && Utf8Char(t) && s != t
    ensures exists i :: DiffersAt(s, t, i)
  {
    if s[0] != t[0] { assert DiffersAt(s, t, 0); }
    else if s[1] != t[1] { assert DiffersAt(s, t, 1); }
    else if s[2] != t[2] { assert DiffersAt(s, t, 2); }
    else { assert DiffersAt(s, t, 3); }
  }

  lemma CharsRise(s: seq<byte>, t: seq<byte>)
    requires Utf8Char(s) && Utf8Char(t)
    ensures Before(s, t) ==> DecodeChar(s) < DecodeChar(t)
  {
    if i: nat :| DiffersAt(s, t, i) && s[i] < t[i] {
      assert i > 0 ==> s[0] == s[..i][0] == t[..i][0] == t[0];
      assert i > 1 ==> s[1] == s[..i][1] == t[..i][1] == t[1];
      assert i > 2 ==> s[2] == s[..i][2] == t[..i][2] == t[2];
    }
  }

  /** No well-formed character is a proper prefix of another. */
  lemma PrefixFree(s: seq<byte>, m: nat, n: nat)
    requires m <= |s| && n <= |s| && Utf8Char(s[..m]) && Utf8Char(s[..n])
    ensures m == n
  {
    assert s[..m][0] == s[0] == s[..n][0];
  }

  // ----- the decoder's specification -----

  /** The length of the well-formed character that begins `s`, 0 when none does. */
  function CharLen(s: seq<byte>): (n: nat)
    ensures n <= |s| && (n > 0 ==> Utf8Char(s[..n]))
    ensures n == 0 ==> forall m: nat :: m <= |s| ==> !Utf8Char(s[..m])
  {
    if |s| >= 1 && Utf8Char(s[..1]) then 1
    else if |s| >= 2 && Utf8Char(s[..2]) then 2
    else if |s| >= 3 && Utf8Char(s[..3]) then 3
    else if |s| >= 4 && Utf8Char(s[..4]) then 4
    else 0
  }

  /** What is decoded, and the offset where decoding stops (the whole length on success). */
  datatype Decoded = Decoded(scalars: seq<Scalar>, stop: nat)

  function Decode(s: seq<byte>): (r: Decoded)
    ensures r.stop <= |s|
    decreases |s|
  {
    var n := CharLen(s);
    if n == 0 then Decoded([], 0)
    else var rest := Decode(s[n..]); Decoded([DecodeChar(s[..n])] + rest.scalars, n + rest.stop)
  }

  predicate Valid(s: seq<byte>) { Decode(s).stop == |s| }

  lemma {:induction false} DecodeStep(s: seq<byte>, n: nat)
    requires n <= |s| && Utf8Char(s[..n])
    ensures CharLen(s) == n
    ensures Decode(s) == Decoded([DecodeChar(s[..n])] + Decode(s[n..]).scalars, n + Decode(s[n..]).stop)
  {
    PrefixFree(s, n, CharLen(s));
  }

  /** Decoding stops at the end of a valid prefix, at an offset where no well-formed character begins,
      and re-encoding what was decoded gives the prefix back. */
  lemma {:induction false} DecodeSound(s: seq<byte>)
    ensures var r := Decode(s); Encode(r.scalars) == s[..r.stop] && CharLen(s[r.stop..]) == 0
    decreases |s|
  {
    hide CharLen, Utf8Char, DecodeChar, EncodeChar;
    var n, r := CharLen(s), Decode(s);
    if n == 0 {
      assert s[r.stop..] == s;
    } else {
      var t := s[n..];
      var r' := Decode(t);
      DecodeSound(t);
      assert s[r.stop..] == t[r'.stop..];
      CharRoundTrip(s[..n]);
      EncodeCons(DecodeChar(s[..n]), r'.scalars);
      Take(s, n, r'.stop);
    }
  }

  lemma EncodeCons(c: Scalar, cs: seq<Scalar>)
    ensures Encode([c] + cs) == EncodeChar(c) + Encode(cs)
  {
    assert ([c] + cs)[1..] == cs;
  }

  lemma Take(s: seq<byte>, n: nat, m: nat)
    requires n + m <= |s|
    ensures s[..n + m] == s[..n] + s[n..][..m]
  {
  }

  lemma NothingDecoded()
    ensures Decode([]) == Decoded([], 0)
  {
  }

  /** Every sequence of scalar values encodes to a string the decoder accepts, and comes back. */
  lemma {:induction false} DecodeEncode(cs: seq<Scalar>)
    ensures Decode(Encode(cs)) == Decoded(cs, |Encode(cs)|)
  {
    hide CharLen, Utf8Char, DecodeChar, EncodeChar;
    if cs == [] {
      NothingDecoded();
    } else {
      var c, s := EncodeChar(cs[0]), Encode(cs);
      EncodedIsChar(cs[0]);
      assert s[..|c|] == c && s[|c|..] == Encode(cs[1..]);
      DecodeStep(s, |c|);
      DecodeEncode(cs[1..]);
    }
  }

  /** The decoder accepts exactly the strings of RFC 3629, section 4, and these are exactly the encodings
      of scalar-value sequences. */
  lemma {:induction false} ValidIffGrammar(s: seq<byte>)
    ensures Valid(s) <==> Utf8Octets(s)
    ensures Valid(s) <==> exists cs: seq<Scalar> :: Encode(cs) == s
    decreases |s|
  {
    DecodeSound(s);
    if Valid(s) {
      assert Encode(Decode(s).scalars) == s;
      var n := CharLen(s);
      if s != [] { ValidIffGrammar(s[n..]); }
    }
    if Utf8Octets(s) && s != [] {
      var n: nat :| 1 <= n <= |s| && Utf8Char(s[..n]) && Utf8Octets(s[n..]);
      DecodeStep(s, n);
      ValidIffGrammar(s[n..]);
    }
    if cs: seq<Scalar> :| Encode(cs) == s { DecodeEncode(cs); }
  }

  /** Self-synchronisation: a cut in front of a non-continuation byte (or the end) never splits a character,
      so decoding the whole is decoding the two halves in turn. */
  lemma {:induction false} DecodeSplit(a: seq<byte>, b: seq<byte>)
    requires b == [] || !Cont(b[0])
    ensures Decode(a + b) ==
      if Valid(a) then Decoded(Decode(a).scalars + Decode(b).scalars, |a| + Decode(b).stop) else Decode(a)
    ensures Valid(a + b) <==> Valid(a) && Valid(b)
    decreases |a|
  {
    hide CharLen, Utf8Char, DecodeChar;
    if a == [] {
      assert a + b == b;
    } else {
      LeadInside(a, b);
      var n := CharLen(a);
      if n > 0 {
        assert (a + b)[..n] == a[..n] && (a + b)[n..] == a[n..] + b;
        DecodeSplit(a[n..], b);
        var c, t, u := DecodeChar(a[..n]), Decode(a[n..]).scalars, Decode(b).scalars;
        assert [c] + (t + u) == ([c] + t) + u;
      }
    }
  }

  /** The first character of a ++ b lies in a. */
  lemma LeadInside(a: seq<byte>, b: seq<byte>)
    requires a != [] && (b == [] || !Cont(b[0]))
    ensures CharLen(a + b) == CharLen(a)
  {
    var n := CharLen(a + b);
    if n > |a| {
      assert (a + b)[..n][|a|] == b[0];
      TailIsCont((a + b)[..n], |a|);
    } else if n > 0 {
      assert (a + b)[..n] == a[..n];
      PrefixFree(a, n, CharLen(a));
    } else {
      var m := CharLen(a);
      assert (a + b)[..m] == a[..m];
    }
  }

  lemma TailIsCont(s: seq<byte>, k: nat)
    requires Utf8Char(s) && 1 <= k < |s|
    ensures Cont(s[k])
  {
  }

  lemma ValidStart(s: seq<byte>)
    requires Valid(s) && s != []
    ensures !Cont(s[0])
  {
    assert CharLen(s) > 0;
    assert s[..CharLen(s)][0] == s[0];
  }

  /** A valid string never holds four continuation bytes in a row. */
  lemma {:induction false} ContRun(s: seq<byte>, i: nat)
    requires Valid(s) && i + 4 <= |s|
    ensures !(Cont(s[i]) && Cont(s[i + 1]) && Cont(s[i + 2]) && Cont(s[i + 3]))
    decreases |s|
  {
    var n := CharLen(s);
    if i >= n {
      ContRun(s[n..], i - n);
    } else {
      ValidStart(s);
      if n < |s| { ValidStart(s[n..]); }
    }
  }
}
