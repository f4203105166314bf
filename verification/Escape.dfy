/** The escape vocabulary of scripts/emit_sweep.py: `encode_escape` and its reader `decode_escape`. */
module Escape {
  import opened Bits
  import opened Text
  import Printing

  const BACKSLASH: byte := 0x5C

  function HexDigitByte(d: nat): byte
    requires d < 16
  {
    if d < 10 then 0x30 + d else 0x61 + (d - 10)
  }

  function EncodeByte(c: byte): seq<byte> {
    if c == BACKSLASH then [BACKSLASH, BACKSLASH]
    else if c == 0x09 then [BACKSLASH, 0x74]
    else if c == 0x0A then [BACKSLASH, 0x6E]
    else if c == 0x0D then [BACKSLASH, 0x72]
    else if 0x20 <= c < 0x7F then [c]
    else [BACKSLASH, 0x78, HexDigitByte(c / 16), HexDigitByte(c % 16)]
  }

  function Encode(b: seq<byte>): seq<byte> {
    if b == [] then [] else EncodeByte(b[0]) + Encode(b[1..])
  }

  function HexVal(c: byte): Option<nat> {
    if 0x30 <= c <= 0x39 then Some(c - 0x30)
    else if 0x61 <= c <= 0x66 then Some(c - 0x61 + 10)
    else if 0x41 <= c <= 0x46 then Some(c - 0x41 + 10)
    else None
  }

  predicate IsSpace(c: byte) { 0x09 <= c <= 0x0D || c == 0x20 }

  /** Python's `int(hx, 16)` on two bytes, where it is a byte value: two digits, or one digit with white space on
      either side of it or a sign before it. */
  function PyHex(h: byte, l: byte): Option<byte> {
    var x, y := HexVal(h), HexVal(l);
    if x.Some? && y.Some? then Some(16 * x.value + y.value)
    else if x.Some? && IsSpace(l) then Some(x.value)
    else if y.Some? && (IsSpace(h) || h == 0x2B) then Some(y.value)
    else if y == Some(0) && h == 0x2D then Some(0)
    else None
  }

  /** The byte the text starts with, and how much of it that takes. */
  function DecodeOne(b: seq<byte>): (r: (byte, nat))
    requires b != []
    ensures 1 <= r.1 <= |b|
  {
    if b[0] != BACKSLASH || |b| < 2 then (b[0], 1)
    else if b[1] == 0x74 then (0x09, 2)
    else if b[1] == 0x6E then (0x0A, 2)
    else if b[1] == 0x72 then (0x0D, 2)
    else if b[1] == BACKSLASH then (BACKSLASH, 2)
    else if b[1] == 0x78 && |b| > 3 && PyHex(b[2], b[3]).Some? then (PyHex(b[2], b[3]).value, 4)
    else (b[0], 1)
  }

  function Decode(b: seq<byte>): seq<byte>
    decreases |b|
  {
    if b == [] then [] else var (c, n) := DecodeOne(b); [c] + Decode(b[n..])
  }

  method EncodeEscape(b: seq<byte>) returns (out: seq<byte>)
    ensures out == Encode(b)
  {
    hide EncodeByte;
    out := [];
    assert b[0..] == b;
    for i := 0 to |b|
      invariant out + Encode(b[i..]) == Encode(b)
    {
      assert b[i..][1..] == b[i + 1..];
      out := out + EncodeByte(b[i]);
    }
  }

  method DecodeEscape(b: seq<byte>) returns (out: seq<byte>)
    ensures out == Decode(b)
  {
    hide PyHex, Decode;
    out := [];
    var i, n := 0, |b|;
    assert b[0..] == b;
    while i < n
      invariant i <= n && out + Decode(b[i..]) == Decode(b)
    {
      var c, m := b[i], 1;
      DecodeAt(b, i);
      if c == BACKSLASH && i + 1 < n {
        var nxt := b[i + 1];
        if nxt == 0x74 { c, m := 0x09, 2; }
        else if nxt == 0x6E { c, m := 0x0A, 2; }
        else if nxt == 0x72 { c, m := 0x0D, 2; }
        else if nxt == BACKSLASH { m := 2; }
        else if nxt == 0x78 && i + 3 < n {
          var v := PyHex(b[i + 2], b[i + 3]);
          if v.Some? { c, m := v.value, 4; }
        }
      }
      assert (c, m) == DecodeOne(b[i..]);
      out := out + [c];
      i := i + m;
    }
    assert b[n..] == [];
    DecodeNothing();
  }

  lemma DecodeNothing()
    ensures Decode([]) == []
  {
  }

  lemma DecodeAt(b: seq<byte>, i: nat)
    requires i < |b|
    ensures var (c, n) := DecodeOne(b[i..]); Decode(b[i..]) == [c] + Decode(b[i + n..])
  {
    hide DecodeOne;
    var (c, n) := DecodeOne(b[i..]);
    assert b[i..][n..] == b[i + n..];
  }

  // ----- what single bytes are written as, and which hexadecimal texts are read -----

  function Chars(b: seq<byte>): (s: string)
    ensures |s| == |b|
  {
    seq(|b|, i requires 0 <= i < |b| => b[i] as char)
  }

  /** How each byte is written. */
  lemma EncodeByteText(c: byte)
    ensures Chars(EncodeByte(c)) ==
      if c as char == '\\' then "\\\\" else if c as char == '\t' then "\\t" else if c as char == '\n' then "\\n"
      else if c as char == '\r' then "\\r" else if ' ' <= c as char <= '~' then [c as char]
      else "\\x" + Printing.HexPair(c)
  {
    HexDigitIs(c / 16);
    HexDigitIs(c % 16);
  }

  lemma HexDigitIs(d: nat)
    requires d < 16
    ensures HexDigitByte(d) as char == "0123456789abcdef"[d]
  {
  }

  predicate AllSpaces(s: seq<byte>) { forall i :: 0 <= i < |s| ==> IsSpace(s[i]) }

  /** The value of hexadecimal digits of either case. */
  ghost predicate Digits(s: seq<byte>, v: nat) {
    if s == [] then v == 0
    else DigitOf(s[|s| - 1], v % 16) && Digits(s[..|s| - 1], v / 16)
  }

  predicate DigitOf(c: byte, d: nat) {
    d < 16 && (c as char == "0123456789abcdef"[d] || c as char == "0123456789ABCDEF"[d])
  }

  /** Python's reading of a number in base 16: digits, a sign before them and white space around both. */
  ghost predicate Reads(s: seq<byte>, v: int, before: seq<byte>, sign: seq<byte>, digits: seq<byte>, after: seq<byte>) {
    && s == before + sign + digits + after && AllSpaces(before) && AllSpaces(after) && digits != []
    && Signs(sign, digits, v)
  }

  ghost predicate Signs(sign: seq<byte>, digits: seq<byte>, v: int) {
    if v >= 0 then Digits(digits, v) && (sign in {[], [0x2B]} || (sign == [0x2D] && v == 0))
    else Digits(digits, -v) && sign == [0x2D]
  }

  lemma DigitIs(c: byte, d: nat)
    ensures DigitOf(c, d) <==> HexVal(c) == Some(d)
  {
  }

  lemma OneDigit(c: byte, v: nat)
    ensures Digits([c], v) <==> HexVal(c) == Some(v)
  {
    var s := [c];
    assert s[..0] == [];
    DigitIs(c, v % 16);
    HexSmall(c);
    hide DigitOf, HexVal;
    assert Digits([], v / 16) <==> v / 16 == 0;
  }

  lemma HexSmall(c: byte)
    ensures HexVal(c).Some? ==> HexVal(c).value < 16 && !IsSpace(c) && c != 0x2B && c != 0x2D
  {
  }

  lemma TwoDigits(h: byte, l: byte, v: nat)
    ensures Digits([h, l], v) <==> HexVal(h).Some? && HexVal(l).Some? && v == 16 * HexVal(h).value + HexVal(l).value
  {
    var s := [h, l];
    assert s[..1] == [h];
    assert Digits(s, v) <==> DigitOf(l, v % 16) && Digits([h], v / 16);
    hide HexVal, Digits, DigitOf;
    OneDigit(h, v / 16);
    DigitIs(l, v % 16);
    HexSmall(h);
    HexSmall(l);
  }

  /** Two bytes are read as a byte value exactly when Python reads that number in them. */
  lemma PyHexIff(h: byte, l: byte, v: byte)
    ensures PyHex(h, l) == Some(v) <==> exists before, sign, digits, after :: Reads([h, l], v, before, sign, digits, after)
  {
    if PyHex(h, l) == Some(v) { PyHexReads(h, l, v); }
    if before, sign, digits, after :| Reads([h, l], v, before, sign, digits, after) {
      ReadsPyHex(h, l, v, before, sign, digits, after);
    }
  }

  lemma PyHexReads(h: byte, l: byte, v: byte)
    requires PyHex(h, l) == Some(v)
    ensures exists before, sign, digits, after :: Reads([h, l], v, before, sign, digits, after)
  {
    TwoDigits(h, l, v);
    OneDigit(h, v);
    OneDigit(l, v);
    hide Digits, HexVal;
    if HexVal(h).Some? && HexVal(l).Some? {
      assert Reads([h, l], v, [], [], [h, l], []);
    } else if HexVal(h).Some? && IsSpace(l) {
      assert Reads([h, l], v, [], [], [h], [l]);
    } else if IsSpace(h) {
      assert Reads([h, l], v, [h], [], [l], []);
    } else {
      assert Reads([h, l], v, [], [h], [l], []);
    }
  }

  lemma ReadsPyHex(h: byte, l: byte, v: byte, before: seq<byte>, sign: seq<byte>, digits: seq<byte>, after: seq<byte>)
    requires Reads([h, l], v, before, sign, digits, after)
    ensures PyHex(h, l) == Some(v)
  {
    var s := [h, l];
    assert |before| + |sign| + |digits| + |after| == 2;
    TwoDigits(h, l, v);
    OneDigit(h, v);
    OneDigit(l, v);
    HexSmall(h);
    HexSmall(l);
    assert |digits| == 2 ==> digits == s;
    if |digits| == 1 && |after| == 1 { assert s == digits + after && digits[0] == s[0] && after[0] == s[1]; }
    if |digits| == 1 && |after| == 0 { assert digits[0] == s[1] && digits == [l]; }
    assert |before| == 1 ==> before[0] == s[0];
    assert |sign| == 1 && |before| == 0 ==> sign[0] == s[0];
    hide Digits, HexVal;
  }

  predicate Printable(s: seq<byte>) { forall i :: 0 <= i < |s| ==> 0x20 <= s[i] < 0x7F }

  /** The encoded text is printable ASCII. */
  lemma {:induction false} EncodePrintable(b: seq<byte>)
    ensures Printable(Encode(b))
    decreases |b|
  {
    if b != [] { EncodePrintable(b[1..]); }
  }

  lemma OneRoundTrip(c: byte, rest: seq<byte>)
    ensures DecodeOne(EncodeByte(c) + rest) == (c, |EncodeByte(c)|)
  {
    var s := EncodeByte(c) + rest;
    if !(c == BACKSLASH || c == 0x09 || c == 0x0A || c == 0x0D || 0x20 <= c < 0x7F) {
      assert s[0] == BACKSLASH && s[1] == 0x78 && s[2] == HexDigitByte(c / 16) && s[3] == HexDigitByte(c % 16);
      assert HexVal(s[2]) == Some(c / 16) && HexVal(s[3]) == Some(c % 16);
    }
  }

  /** Decoding is the inverse of encoding, on every byte string. */
  lemma {:induction false} EscapeRoundTrip(b: seq<byte>)
    ensures Decode(Encode(b)) == b
    decreases |b|
  {
    hide EncodeByte, DecodeOne;
    if b != [] {
      var c, rest := EncodeByte(b[0]), Encode(b[1..]);
      OneRoundTrip(b[0], rest);
      assert (c + rest)[|c|..] == rest;
      EncodeNonEmpty(b[0]);
      EscapeRoundTrip(b[1..]);
    }
  }

  lemma EncodeNonEmpty(c: byte)
    ensures EncodeByte(c) != []
  {
  }

  /** A text is canonical, unchanged by decoding and encoding again, exactly when it is some byte string's encoding. */
  lemma CanonicalIff(s: seq<byte>)
    ensures Encode(Decode(s)) == s <==> exists b: seq<byte> :: Encode(b) == s
  {
    hide Encode, Decode;
    if b: seq<byte> :| Encode(b) == s { EscapeRoundTrip(b); }
  }

  // ----- a patterns file: one encoded pattern per line -----

  /** `not line.strip()`, on a line of printable text. */
  predicate BlankLine(line: seq<byte>) { forall i :: 0 <= i < |line| ==> IsSpace(line[i]) }

  predicate Skipped(line: seq<byte>) { BlankLine(line) || line[0] == 0x23 }

  function Rows(lines: seq<seq<byte>>): seq<seq<byte>> {
    if lines == [] then []
    else (if Skipped(lines[0]) then [] else [Decode(lines[0])]) + Rows(lines[1..])
  }

  /** A file that shows no pattern is an error. */
  function ReadPatterns(lines: seq<seq<byte>>): Result<seq<seq<byte>>> {
    if Rows(lines) == [] then Err("no patterns") else Ok(Rows(lines))
  }

  function EncodeAll(patterns: seq<seq<byte>>): seq<seq<byte>> {
    if patterns == [] then [] else [Encode(patterns[0])] + EncodeAll(patterns[1..])
  }

  /** A pattern a patterns file cannot carry: nothing but spaces, or a leading `#`. */
  predicate Lost(b: seq<byte>) { (forall i :: 0 <= i < |b| ==> b[i] == 0x20) || b[0] == 0x23 }

  lemma SkippedIffLost(b: seq<byte>)
    ensures Skipped(Encode(b)) <==> Lost(b)
  {
    if b != [] {
      hide Encode, EncodeByte;
      EncodeHead(b);
    }
    BlankIff(b);
  }

  lemma EncodeHead(b: seq<byte>)
    requires b != []
    ensures Encode(b) != [] && (Encode(b)[0] == 0x23 <==> b[0] == 0x23)
  {
    EncodeNonEmpty(b[0]);
  }

  lemma {:induction false} BlankIff(b: seq<byte>)
    ensures BlankLine(Encode(b)) <==> forall i :: 0 <= i < |b| ==> b[i] == 0x20
    decreases |b|
  {
    if b != [] {
      BlankIff(b[1..]);
      var c, rest := EncodeByte(b[0]), Encode(b[1..]);
      hide EncodeByte;
      ByteBlank(b[0]);
      assert Encode(b) == c + rest;
      if BlankLine(c + rest) {
        assert forall i :: 0 <= i < |c| ==> (c + rest)[i] == c[i];
        assert forall i :: 0 <= i < |rest| ==> (c + rest)[|c| + i] == rest[i];
      }
      assert forall i :: 0 <= i < |b| ==> b[i] == if i == 0 then b[0] else b[1..][i - 1];
    }
  }

  lemma ByteBlank(c: byte)
    ensures BlankLine(EncodeByte(c)) <==> c == 0x20
  {
    var e := EncodeByte(c);
    assert e[0] == c || e[0] == BACKSLASH;
  }

  lemma {:induction false} RowsRoundTripIff(patterns: seq<seq<byte>>)
    ensures |Rows(EncodeAll(patterns))| <= |patterns|
    ensures Rows(EncodeAll(patterns)) == patterns <==> forall p :: p in patterns ==> !Lost(p)
    decreases |patterns|
  {
    hide Encode, Decode, Skipped, Lost;
    if patterns != [] {
      var p, rest := patterns[0], patterns[1..];
      RowsRoundTripIff(rest);
      SkippedIffLost(p);
      EscapeRoundTrip(p);
      assert EncodeAll(patterns)[1..] == EncodeAll(rest);
      assert forall q :: q in patterns <==> q == p || q in rest;
      assert patterns == [p] + rest;
      if !Lost(p) && Rows(EncodeAll(patterns)) == patterns {
        assert Rows(EncodeAll(patterns))[1..] == Rows(EncodeAll(rest));
      }
    }
  }

  lemma {:induction false} NoRowsIff(patterns: seq<seq<byte>>)
    ensures Rows(EncodeAll(patterns)) == [] <==> forall p :: p in patterns ==> Lost(p)
    decreases |patterns|
  {
    hide Encode, Decode, Skipped, Lost;
    if patterns != [] {
      var p, rest := patterns[0], patterns[1..];
      NoRowsIff(rest);
      SkippedIffLost(p);
      assert EncodeAll(patterns)[1..] == EncodeAll(rest);
      assert forall q :: q in patterns <==> q == p || q in rest;
    }
  }

  /** Reading a written patterns file gives all the patterns back if and only if there is one and none of them is lost;
      it fails if and only if all of them are. */
  lemma PatternsRoundTripIff(patterns: seq<seq<byte>>)
    ensures ReadPatterns(EncodeAll(patterns)) == Ok(patterns) <==>
            patterns != [] && forall p :: p in patterns ==> !Lost(p)
    ensures ReadPatterns(EncodeAll(patterns)).Err? <==> forall p :: p in patterns ==> Lost(p)
  {
    hide Rows, EncodeAll, Lost;
    RowsRoundTripIff(patterns);
    NoRowsIff(patterns);
  }
}
