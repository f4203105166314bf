/** The per-offset byte proof of a form's class (memfn/src/compose.c: `term_prove`, `kit_class`). A 256-bit byte
    set is modelled as the set of its members, so the bytewise `&` of two is their intersection. */
module FormClass {
  import opened Bits
  import opened Text

  const PROOF_LO := -8
  const MAX_FWD := 33
  const MAX_TERM := 32

  /** A term reads the bytes at its offset from the candidate: a set, a run under an optional mask, or a run-time
      operand that constrains nothing here. `run` is absent where the term gives no pointer. */
  datatype Term =
    | SetTerm(offset: int, required: bool, members: set<byte>)
    | RunTerm(offset: int, required: bool, run: Option<seq<byte>>, mask: Option<seq<byte>>)
    | RefTerm(offset: int, required: bool)

  /** How many positions a term reads. */
  function Len(t: Term): nat {
    match t
    case SetTerm(_, _, _) => 1
    case RunTerm(_, _, Some(run), _) => |run|
    case _ => 0
  }

  predicate TermOk(t: Term) { t.RunTerm? && t.run.Some? && t.mask.Some? ==> |t.mask.value| == |t.run.value| }

  function MaskAt(t: Term, j: nat): byte
    requires t.RunTerm? && TermOk(t) && j < Len(t)
  {
    if t.mask.Some? then t.mask.value[j] else 0xFF
  }

  /** Position `j` of the term admits the byte: membership, or the masked compare of `mf_ref_run_verify`. */
  predicate Admits(t: Term, j: nat, b: byte)
    requires TermOk(t) && j < Len(t)
  {
    match t
    case SetTerm(_, _, members) => b in members
    case RunTerm(_, _, run, _) => And(b, MaskAt(t, j)) == run.value[j]
  }

  /** What a candidate is, seen from the term: a byte at every offset. */
  type Candidate = int -> byte

  predicate Satisfies(c: Candidate, t: Term)
    requires TermOk(t)
  {
    forall j: nat :: j < Len(t) ==> HoldsAt(c, t, j)
  }

  predicate HoldsAt(c: Candidate, t: Term, j: nat)
    requires TermOk(t) && j < Len(t)
  {
    Admits(t, j, c(t.offset + j))
  }

  // ----- the row and the predicate -----

  datatype Tests = Unstated | Every | RequiredOnly
  datatype Site = Site(find: bool, required: bool, terms: seq<Term>)

  predicate SiteOk(s: Site) { forall t :: t in s.terms ==> TermOk(t) }

  /** The row's text tests the term at every candidate. */
  predicate RowTests(tests: Tests, s: Site, t: Term) {
    tests == Every || (tests == RequiredOnly && t.required && s.required)
  }

  /** Term `i` counts: it is among the first 32 and the row tests it. */
  predicate Tested(tests: Tests, s: Site, i: nat) {
    i < |s.terms| && i < MAX_TERM && RowTests(tests, s, s.terms[i])
  }

  ghost predicate SatisfiesTested(c: Candidate, tests: Tests, s: Site)
    requires SiteOk(s)
  {
    forall i: nat :: Tested(tests, s, i) ==> TermOk(s.terms[i]) && Satisfies(c, s.terms[i])
  }

  /** Term `t` lets byte `b` stand at offset `d`. */
  predicate AllowsAt(t: Term, d: int, b: byte)
    requires TermOk(t)
  {
    t.offset <= d < t.offset + Len(t) ==> Admits(t, d - t.offset, b)
  }

  /** Every tested term lets byte `b` stand at offset `d`. */
  ghost predicate AllAllow(tests: Tests, s: Site, d: int, b: byte)
    requires SiteOk(s)
  {
    forall i: nat :: Tested(tests, s, i) ==> TermOk(s.terms[i]) && AllowsAt(s.terms[i], d, b)
  }

  lemma SatisfiesIffAllows(c: Candidate, tests: Tests, s: Site)
    requires SiteOk(s)
    ensures SatisfiesTested(c, tests, s) <==> forall d: int :: AllAllow(tests, s, d, c(d))
  {
    hide Admits, Len, RowTests;
    if SatisfiesTested(c, tests, s) {
      forall d: int, i: nat | Tested(tests, s, i)
        ensures TermOk(s.terms[i]) && AllowsAt(s.terms[i], d, c(d))
      {
        var t := s.terms[i];
        if t.offset <= d < t.offset + Len(t) { assert HoldsAt(c, t, d - t.offset); }
      }
    }
    if forall d: int :: AllAllow(tests, s, d, c(d)) {
      forall i: nat | Tested(tests, s, i)
        ensures TermOk(s.terms[i]) && Satisfies(c, s.terms[i])
      {
        var t := s.terms[i];
        assert t in s.terms;
        forall j: nat | j < Len(t)
          ensures HoldsAt(c, t, j)
        {
          var d := t.offset + j;
          assert AllAllow(tests, s, d, c(d));
        }
      }
    }
  }

  // ----- the program -----

  const ALL_BYTES: set<byte> := set b: byte | 0 <= b < 256

  /** Bit by bit, what the position under the mask bits `m` and the run byte `r` asks of `b`: where the mask has a bit
      the two agree, and elsewhere the run byte has none. */
  ghost predicate MaskedEqual(m: byte, r: byte, b: byte) {
    forall i: nat :: i < 8 ==> if Bit(m, i) then Bit(b, i) == Bit(r, i) else !Bit(r, i)
  }

  lemma AndEqual(m: byte, r: byte, b: byte)
    ensures And(b, m) < 256 && (And(b, m) == r <==> MaskedEqual(m, r, b))
  {
    hide Bit, And;
    AndSmall(b, m);
    ByteBits(And(b, m), r);
    forall i: nat | i < 8
      ensures Bit(And(b, m), i) == (Bit(b, i) && Bit(m, i))
    {
      AndBit(b, m, i);
    }
  }

  lemma {:induction false} AndSmall(a: nat, b: nat)
    ensures And(a, b) <= a
    decreases a
  {
    if a > 0 { AndSmall(a / 2, b / 2); }
  }

  lemma FullMask(i: nat)
    requires i < 8
    ensures Bit(0xFF, i)
  {
    assert Pow2(0) == 1 && Pow2(1) == 2 && Pow2(2) == 4 && Pow2(3) == 8;
    assert Pow2(4) == 16 && Pow2(5) == 32 && Pow2(6) == 64 && Pow2(7) == 128;
    assert i in {0, 1, 2, 3, 4, 5, 6, 7};
  }

  /** What a term lets stand at offset `d`, stated on sets and bits. */
  ghost predicate Lets(t: Term, d: int, b: byte) {
    match t
    case SetTerm(offset, _, members) => d == offset ==> b in members
    case RunTerm(offset, _, run, mask) =>
      run.Some? && offset <= d < offset + |run.value| && (mask.Some? ==> |mask.value| == |run.value|) ==>
        var r := run.value[d - offset];
        if mask.Some? then MaskedEqual(mask.value[d - offset], r, b) else b == r
    case RefTerm(_, _) => true
  }

  lemma AllowsLets(t: Term, d: int, b: byte)
    requires TermOk(t)
    ensures AllowsAt(t, d, b) <==> Lets(t, d, b)
  {
    hide Bit, And, MaskedEqual;
    if t.RunTerm? && t.run.Some? && t.offset <= d < t.offset + |t.run.value| {
      var j := d - t.offset;
      AndEqual(MaskAt(t, j), t.run.value[j], b);
      if t.mask.None? { WholeByte(t.run.value[j], b); }
    }
  }

  lemma WholeByte(r: byte, b: byte)
    ensures MaskedEqual(0xFF, r, b) <==> b == r
  {
    hide Bit;
    ByteBits(b, r);
    forall i: nat | i < 8
      ensures Bit(0xFF, i)
    {
      FullMask(i);
    }
  }

  /** The bytes a run position admits under its mask: those with the run byte's bits where the mask has a bit, and none
      at all if the run byte has a bit elsewhere. Bytes that differ only outside the mask are in it or out together. */
  method RunSet(t: Term, j: nat) returns (r: set<byte>)
    requires t.RunTerm? && TermOk(t) && j < Len(t)
    ensures forall b: byte :: b in r <==> Admits(t, j, b)
    ensures t.mask.Some? ==> forall b: byte :: b in r <==> MaskedEqual(t.mask.value[j], t.run.value[j], b)
    ensures t.mask.None? ==> r == {t.run.value[j]}
  {
    r := {};
    for i := 0 to 256
      invariant forall b: byte :: b in r <==> b < i && Admits(t, j, b)
    {
      var b: byte := i;
      if And(b, MaskAt(t, j)) == t.run.value[j] { r := r + {b}; }
    }
    hide And, MaskedEqual;
    forall b: byte
      ensures Admits(t, j, b) <==> MaskedEqual(MaskAt(t, j), t.run.value[j], b)
    {
      AndEqual(MaskAt(t, j), t.run.value[j], b);
    }
    if t.mask.None? {
      forall b: byte
        ensures b in r <==> b == t.run.value[j]
      {
        WholeByte(t.run.value[j], b);
      }
    }
  }

  lemma OutsideMask(m: byte, r: byte, b: byte, b': byte)
    requires forall i: nat :: i < 8 && Bit(m, i) ==> Bit(b, i) == Bit(b', i)
    ensures MaskedEqual(m, r, b) == MaskedEqual(m, r, b')
  {
    hide Bit;
  }

  /** Intersects what a term admits into the rows of the proof it reads, `dlo` to `dhi` only. */
  method TermProve(t: Term, dlo: int, dhi: int, pv: array<set<byte>>)
    requires TermOk(t) && pv.Length == MAX_FWD - PROOF_LO
    modifies pv
    ensures forall r :: 0 <= r < pv.Length ==> forall b: byte :: (
      b in pv[r] <==> b in old(pv[r]) && (dlo <= r + PROOF_LO <= dhi ==> AllowsAt(t, r + PROOF_LO, b)))
  {
    hide Admits;
    var len := Len(t);
    for j := 0 to len
      invariant forall r :: 0 <= r < pv.Length ==> forall b: byte :: (
        b in pv[r] <==> (b in old(pv[r]) &&
                         (dlo <= r + PROOF_LO <= dhi && t.offset <= r + PROOF_LO < t.offset + j ==>
                            Admits(t, r + PROOF_LO - t.offset, b))))
    {
      var d := t.offset + j;
      if d < PROOF_LO || d >= MAX_FWD || d < dlo || d > dhi { continue; }
      var admitted := if t.SetTerm? then t.members else {};
      if t.RunTerm? { admitted := RunSet(t, j); } else { SetAdmits(t); }
      pv[d - PROOF_LO] := pv[d - PROOF_LO] * admitted;
    }
  }

  lemma SetAdmits(t: Term)
    requires t.SetTerm?
    ensures forall b: byte :: Admits(t, 0, b) <==> b in t.members
  {
  }

  /** A class: what is proven at each offset, offsets 0 and -1 copied. */
  datatype Class = Class(proven: seq<set<byte>>, proven0: set<byte>, provenPrev: set<byte>)

  /** Refused when a FIND row does not state what it tests. Otherwise row `d` of the proof holds exactly the bytes
      every tested term lets stand at offset `d`, every byte where the site is no FIND. */
  method KitClass(tests: Tests, s: Site) returns (refused: bool, out: Class)
    requires SiteOk(s)
    ensures refused <==> s.find && tests == Unstated
    ensures |out.proven| == MAX_FWD - PROOF_LO
    ensures forall d, b: byte :: PROOF_LO <= d < MAX_FWD ==>
      (b in out.proven[d - PROOF_LO] <==> (s.find && tests != Unstated ==> AllAllow(tests, s, d, b)))
    ensures out.proven0 == out.proven[0 - PROOF_LO] && out.provenPrev == out.proven[-1 - PROOF_LO]
    ensures |out.proven| == 41 && ProvesBits(out.proven, tests, s)
  {
    hide AllowsAt, RowTests;
    var pv := new set<byte>[MAX_FWD - PROOF_LO](_ => ALL_BYTES);
    refused := false;
    if s.find && tests == Unstated {
      refused := true;
    } else if s.find {
      for i := 0 to if |s.terms| < MAX_TERM then |s.terms| else MAX_TERM
        invariant forall r :: 0 <= r < pv.Length ==> forall b: byte :: (
          b in pv[r] <==>
            forall k: nat :: k < i && Tested(tests, s, k) ==> TermOk(s.terms[k]) && AllowsAt(s.terms[k], r + PROOF_LO, b))
      {
        assert s.terms[i] in s.terms;
        if RowTests(tests, s, s.terms[i]) { TermProve(s.terms[i], PROOF_LO, MAX_FWD - 1, pv); }
      }
    }
    out := Class(pv[..], pv[0 - PROOF_LO], pv[-1 - PROOF_LO]);
    AllBits(out.proven, tests, s);
  }

  /** A class's proof, stated on sets and bits: among the first 32 terms, those the row tests. */
  ghost predicate ProvesBits(proven: seq<set<byte>>, tests: Tests, s: Site)
    requires |proven| == 41
  {
    forall d, b: byte :: -8 <= d < 33 ==> ProvenAt(proven, tests, s, d, b)
  }

  ghost predicate ProvenAt(proven: seq<set<byte>>, tests: Tests, s: Site, d: int, b: byte)
    requires |proven| == 41 && -8 <= d < 33
  {
    b in proven[d + 8] <==> (s.find && tests != Unstated ==> TestedLet(tests, s, d, b))
  }

  ghost predicate TestedLet(tests: Tests, s: Site, d: int, b: byte) {
    forall i: nat :: i < |s.terms| && i < 32 ==>
      (tests == Every || (tests == RequiredOnly && s.terms[i].required && s.required) ==> Lets(s.terms[i], d, b))
  }

  lemma AllBits(proven: seq<set<byte>>, tests: Tests, s: Site)
    requires SiteOk(s) && |proven| == 41
    requires forall d, b: byte :: PROOF_LO <= d < MAX_FWD ==>
      (b in proven[d - PROOF_LO] <==> (s.find && tests != Unstated ==> AllAllow(tests, s, d, b)))
    ensures ProvesBits(proven, tests, s)
  {
    hide AllowsAt, Lets;
    forall d, b: byte | -8 <= d < 33
      ensures ProvenAt(proven, tests, s, d, b)
    {
      forall i: nat | i < |s.terms|
        ensures TermOk(s.terms[i]) && (AllowsAt(s.terms[i], d, b) <==> Lets(s.terms[i], d, b))
      {
        assert s.terms[i] in s.terms;
        AllowsLets(s.terms[i], d, b);
      }
      assert AllAllow(tests, s, d, b) <==> TestedLet(tests, s, d, b);
      assert d - PROOF_LO == d + 8;
      assert b in proven[d - PROOF_LO] <==> (s.find && tests != Unstated ==> AllAllow(tests, s, d, b));
    }
  }

  /** A letter under the mask that forgets its case: exactly the two letters. */
  lemma MaskedLetter(proven: seq<set<byte>>, tests: Tests)
    requires |proven| == 41 && tests == Every
    requires ProvesBits(proven, tests, Site(true, true, [RunTerm(0, true, Some([0x41]), Some([0xDF]))]))
    ensures proven[8] == {0x41, 0x61}
  {
    var s := Site(true, true, [RunTerm(0, true, Some([0x41]), Some([0xDF]))]);
    hide And;
    forall b: byte
      ensures b in proven[8] <==> b == 0x41 || b == 0x61
    {
      OneTerm(s, b);
      assert ProvenAt(proven, tests, s, 0, b);
      AndEqual(0xDF, 0x41, b);
      LetterMask(b);
    }
  }

  lemma OneTerm(s: Site, b: byte)
    requires s == Site(true, true, [RunTerm(0, true, Some([0x41]), Some([0xDF]))])
    ensures TestedLet(Every, s, 0, b) <==> MaskedEqual(0xDF, 0x41, b)
  {
    hide MaskedEqual;
    assert Lets(s.terms[0], 0, b) <==> MaskedEqual(0xDF, 0x41, b);
  }

  lemma LetterMask(b: byte)
    ensures And(b, 0xDF) == 0x41 <==> b == 0x41 || b == 0x61
  {
    hide And;
    var g := b / 64;
    assert b / 2 / 2 / 2 / 2 / 2 == b / 32 && b / 32 / 2 == g by { Halves(b); }
    AndTop(b / 32);
    LowDigit(b / 2 / 2 / 2 / 2, 0x0D, 4 * g, 1);
    LowDigit(b / 2 / 2 / 2, 0x1B, 8 * g, 2);
    LowDigit(b / 2 / 2, 0x37, 16 * g, 4);
    LowDigit(b / 2, 0x6F, 32 * g, 8);
    LowDigit(b, 0xDF, 64 * g, 16);
  }

  lemma Halves(b: byte)
    ensures b / 2 / 2 / 2 / 2 / 2 == b / 32 && b / 32 / 2 == b / 64
  {
  }

  lemma AndTop(f: nat)
    requires f < 8
    ensures And(f, 0x06) == 2 * (f / 2)
  {
    assert f in {0, 1, 2, 3, 4, 5, 6, 7};
  }

  /** A mask that ends in a one keeps the low bits it has kept so far, and one more. */
  lemma LowDigit(x: nat, m: nat, high: nat, r: nat)
    requires m % 2 == 1 && r > 0 && 2 * And(x / 2, m / 2) == high + 2 * (x / 2 % r)
    ensures And(x, m) == high + x % (2 * r)
  {
    hide And;
    AndDigit(x, m);
    ModHalves(x, r);
  }

  lemma AndDigit(x: nat, m: nat)
    ensures And(x, m) == 2 * And(x / 2, m / 2) + if x % 2 == 1 && m % 2 == 1 then 1 else 0
  {
    if x == 0 { assert And(0, m / 2) == 0; }
  }

  // ----- soundness and tightness -----

  /** `proven` is a class's proof for the site. */
  ghost predicate ProofOf(proven: seq<set<byte>>, tests: Tests, s: Site)
    requires SiteOk(s)
  {
    |proven| == MAX_FWD - PROOF_LO &&
    forall d, b: byte :: PROOF_LO <= d < MAX_FWD ==> (b in proven[d - PROOF_LO] <==> AllAllow(tests, s, d, b))
  }

  /** At every candidate that satisfies the tested terms, the byte at each offset lies in the proof. */
  lemma ProofSound(proven: seq<set<byte>>, tests: Tests, s: Site, c: Candidate, d: int)
    requires SiteOk(s) && ProofOf(proven, tests, s) && SatisfiesTested(c, tests, s) && PROOF_LO <= d < MAX_FWD
    ensures c(d) in proven[d - PROOF_LO]
  {
    hide AllAllow, SatisfiesTested;
    SatisfiesIffAllows(c, tests, s);
  }

  /** When some candidate satisfies the tested terms, every byte of the proof occurs at one that does. */
  lemma ProofTight(proven: seq<set<byte>>, tests: Tests, s: Site, c: Candidate, d: int, b: byte)
      returns (c': Candidate)
    requires SiteOk(s) && ProofOf(proven, tests, s) && SatisfiesTested(c, tests, s) && PROOF_LO <= d < MAX_FWD
    requires b in proven[d - PROOF_LO]
    ensures SatisfiesTested(c', tests, s) && c'(d) == b
  {
    hide AllAllow, SatisfiesTested;
    c' := x => if x == d then b else c(x);
    SatisfiesIffAllows(c, tests, s);
    SatisfiesIffAllows(c', tests, s);
    forall x: int
      ensures AllAllow(tests, s, x, c'(x))
    {
      assert AllAllow(tests, s, x, c(x));
    }
  }

  /** Some byte may stand at offset `d`. */
  ghost predicate Open(tests: Tests, s: Site, d: int)
    requires SiteOk(s)
  {
    exists b: byte :: AllAllow(tests, s, d, b)
  }

  /** The tested terms are jointly satisfiable exactly when they leave a byte at every offset. */
  lemma SatisfiableIff(tests: Tests, s: Site)
    requires SiteOk(s)
    ensures (exists c: Candidate :: SatisfiesTested(c, tests, s)) <==> forall d: int :: Open(tests, s, d)
  {
    hide AllAllow, SatisfiesTested;
    if c: Candidate :| SatisfiesTested(c, tests, s) {
      SatisfiesIffAllows(c, tests, s);
      forall d: int
        ensures Open(tests, s, d)
      {
        assert AllAllow(tests, s, d, c(d));
      }
    }
    if forall d: int :: Open(tests, s, d) {
      var c: Candidate := d => Pick(tests, s, d);
      SatisfiesIffAllows(c, tests, s);
    }
  }

  ghost function Pick(tests: Tests, s: Site, d: int): (b: byte)
    requires SiteOk(s)
    ensures Open(tests, s, d) ==> AllAllow(tests, s, d, b)
  {
    if Open(tests, s, d) then var b: byte :| AllAllow(tests, s, d, b); b else 0
  }
}
