/** Text pieces shared by the bundle writer and reader: padding, words, decimal and hexadecimal numbers, lines. */
module Text {
  datatype Option<+T> = None | Some(value: T)
  datatype Result<+T> = Ok(value: T) | Err(message: string)

  function Spaces(n: nat): (s: string)
    ensures |s| == n && forall i :: 0 <= i < n ==> s[i] == ' '
  {
    seq(n, _ => ' ')
  }

  predicate IsBlank(c: char) { c == ' ' || c == '\t' }

  predicate StartsWith(s: string, prefix: string) { |prefix| <= |s| && s[..|prefix|] == prefix }

  // ----- decimal -----

  predicate IsDigit(c: char) { '0' <= c <= '9' }

  function DigitValue(c: char): nat
    requires IsDigit(c)
  {
    c as int - '0' as int
  }

  function DigitChar(d: nat): (c: char)
    requires d < 10
    ensures IsDigit(c) && DigitValue(c) == d
  {
    ('0' as int + d) as char
  }

  /** `%llu`. */
  function Dec(n: nat): (s: string)
    ensures s != [] && forall i :: 0 <= i < |s| ==> IsDigit(s[i])
  {
    if n < 10 then [DigitChar(n)] else Dec(n / 10) + [DigitChar(n % 10)]
  }

  /** The value of the digits `s` starts with, after the digits read so far. */
  function DecValue(s: string, acc: nat): nat
    decreases |s|
  {
    if s == [] || !IsDigit(s[0]) then acc else DecValue(s[1..], acc * 10 + DigitValue(s[0]))
  }

  lemma {:induction false} DecValueSnoc(s: string, c: char, acc: nat)
    requires IsDigit(c) && forall i :: 0 <= i < |s| ==> IsDigit(s[i])
    ensures DecValue(s + [c], acc) == DecValue(s, acc) * 10 + DigitValue(c)
    decreases |s|
  {
    if s == [] {
      assert DecValue([], acc * 10 + DigitValue(c)) == acc * 10 + DigitValue(c);
      assert ([c])[1..] == [];
    } else {
      assert (s + [c])[1..] == s[1..] + [c];
      DecValueSnoc(s[1..], c, acc * 10 + DigitValue(s[0]));
    }
  }

  lemma {:induction false} DecRoundTrip(n: nat)
    ensures DecValue(Dec(n), 0) == n
    decreases n
  {
    if n < 10 {
      assert Dec(n)[1..] == [];
    } else {
      DecRoundTrip(n / 10);
      DecValueSnoc(Dec(n / 10), DigitChar(n % 10), 0);
    }
  }

  // ----- hexadecimal -----

  predicate IsHex(c: char) { IsDigit(c) || 'a' <= c <= 'f' || 'A' <= c <= 'F' }

  function HexValueOf(c: char): nat
    requires IsHex(c)
  {
    if IsDigit(c) then c as int - '0' as int
    else if 'a' <= c <= 'f' then c as int - 'a' as int + 10
    else c as int - 'A' as int + 10
  }

  function HexChar(d: nat, upper: bool): (c: char)
    requires d < 16
    ensures IsHex(c) && HexValueOf(c) == d
  {
    if d < 10 then ('0' as int + d) as char
    else if upper then ('A' as int + (d - 10)) as char
    else ('a' as int + (d - 10)) as char
  }

  /** `%0wx` or `%0wX`: at least `w` digits. */
  function Hex(n: nat, w: nat, upper: bool): (s: string)
    ensures |s| >= w && forall i :: 0 <= i < |s| ==> IsHex(s[i])
    decreases w + n
  {
    if n == 0 && w == 0 then []
    else Hex(n / 16, if w == 0 then 0 else w - 1, upper) + [HexChar(n % 16, upper)]
  }

  function HexValue(s: string, acc: nat): nat
    decreases |s|
  {
    if s == [] || !IsHex(s[0]) then acc else HexValue(s[1..], acc * 16 + HexValueOf(s[0]))
  }

  lemma {:induction false} HexValueSnoc(s: string, c: char, acc: nat)
    requires IsHex(c) && forall i :: 0 <= i < |s| ==> IsHex(s[i])
    ensures HexValue(s + [c], acc) == HexValue(s, acc) * 16 + HexValueOf(c)
    decreases |s|
  {
    hide HexValueOf;
    if s == [] {
      assert HexValue([], acc * 16 + HexValueOf(c)) == acc * 16 + HexValueOf(c);
      assert ([c])[1..] == [];
    } else {
      assert (s + [c])[1..] == s[1..] + [c];
      HexValueSnoc(s[1..], c, acc * 16 + HexValueOf(s[0]));
    }
  }

  function Pow16(d: nat): nat { if d == 0 then 1 else 16 * Pow16(d - 1) }

  lemma {:induction false} HexLength(n: nat, w: nat, upper: bool, d: nat)
    requires n < Pow16(d) && w <= d
    ensures |Hex(n, w, upper)| <= d
    decreases d
  {
    if n > 0 || w > 0 {
      HexLength(n / 16, if w == 0 then 0 else w - 1, upper, d - 1);
    }
  }

  lemma {:induction false} HexRoundTrip(n: nat, w: nat, upper: bool)
    ensures HexValue(Hex(n, w, upper), 0) == n
    decreases w + n
  {
    hide HexChar, HexValueOf;
    if n > 0 || w > 0 {
      var w' := if w == 0 then 0 else w - 1;
      HexRoundTrip(n / 16, w', upper);
      HexValueSnoc(Hex(n / 16, w', upper), HexChar(n % 16, upper), 0);
    }
  }

  // ----- lines -----

  predicate NoNewline(s: string) { forall i :: 0 <= i < |s| ==> s[i] != '\n' }

  function Unlines(lines: seq<string>): string {
    if lines == [] then [] else lines[0] + ['\n'] + Unlines(lines[1..])
  }

  /** The offset of the first newline at or after `i`, or the length. */
  function LineEnd(s: string, i: nat): (r: nat)
    requires i <= |s|
    ensures i <= r <= |s| && (r < |s| ==> s[r] == '\n')
    decreases |s| - i
  {
    if i < |s| && s[i] != '\n' then LineEnd(s, i + 1) else i
  }

  /** The lines of a text; a last line needs no newline. */
  function Lines(s: string): seq<string>
    decreases |s|
  {
    if s == [] then []
    else
      var e := LineEnd(s, 0);
      [s[..e]] + if e < |s| then Lines(s[e + 1..]) else []
  }

  lemma {:induction false} LineEndAt(s: string, i: nat, e: nat)
    requires i <= e <= |s| && (forall j :: i <= j < e ==> s[j] != '\n') && (e < |s| ==> s[e] == '\n')
    ensures LineEnd(s, i) == e
    decreases e - i
  {
    if i < e { LineEndAt(s, i + 1, e); }
  }

  lemma {:induction false} LinesUnlines(lines: seq<string>)
    requires forall i :: 0 <= i < |lines| ==> NoNewline(lines[i])
    ensures Lines(Unlines(lines)) == lines
    decreases |lines|
  {
    if lines != [] {
      var s, e := Unlines(lines), |lines[0]|;
      LineEndAt(s, 0, e);
      assert s[..e] == lines[0] && s[e + 1..] == Unlines(lines[1..]);
      LinesUnlines(lines[1..]);
    }
  }
}
