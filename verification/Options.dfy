/** The `--memfn=` option string (memfn/src/options.c) and the deny-aware first-match walk that reads it
    (memfn/src/compose.c). */
module Options {
  import opened Bits
  import opened Text

  /** One registry row; only a pair may be forced by its bare name. */
  datatype OptRow = OptRow(name: string, pair: bool)

  function Find(table: seq<OptRow>, name: string): Option<OptRow> {
    if table == [] then None else if table[0].name == name then Some(table[0]) else Find(table[1..], name)
  }

  // ----- the reference reading: comma-separated tokens -----

  /** The offset of the next comma at or after `i`, or the length. */
  function NextComma(s: string, i: nat): (r: nat)
    requires i <= |s|
    ensures i <= r <= |s| && (forall j :: i <= j < r ==> s[j] != ',') && (r < |s| ==> s[r] == ',')
    decreases |s| - i
  {
    if i < |s| && s[i] != ',' then NextComma(s, i + 1) else i
  }

  function Split(s: string): (r: seq<string>)
    ensures r != []
    decreases |s|
  {
    var e := NextComma(s, 0);
    if e == |s| then [s] else [s[..e]] + Split(s[e + 1..])
  }

  predicate Denies(tok: string) { |tok| > 3 && tok[..3] == "no-" }

  /** `no-NAME` for any registered name, a bare `NAME` only for a pair. */
  predicate Legal(table: seq<OptRow>, tok: string) {
    tok != "" &&
    if Denies(tok) then Find(table, tok[3..]).Some?
    else Find(table, tok).Some? && Find(table, tok).value.pair
  }

  /** The first row of the name. */
  predicate FirstNamed(table: seq<OptRow>, i: nat, name: string) {
    i < |table| && table[i].name == name && forall j :: 0 <= j < i ==> table[j].name != name
  }

  lemma {:induction false} FindIs(table: seq<OptRow>, name: string)
    ensures Find(table, name).None? ==> forall j :: 0 <= j < |table| ==> table[j].name != name
    ensures Find(table, name).Some? ==> exists i: nat :: FirstNamed(table, i, name) && Find(table, name) == Some(table[i])
    decreases table
  {
    if table != [] {
      if table[0].name == name {
        assert FirstNamed(table, 0, name);
      } else {
        FindIs(table[1..], name);
        if i: nat :| FirstNamed(table[1..], i, name) && Find(table[1..], name) == Some(table[1..][i]) {
          assert FirstNamed(table, i + 1, name);
        }
      }
    }
  }

  predicate Denial(tok: string, name: string) { name != "" && tok == "no-" + name }

  /** A token is legal exactly when it denies some row, or is the name of a row that is a pair and denies nothing. */
  lemma LegalIff(table: seq<OptRow>, tok: string)
    ensures Legal(table, tok) <==>
      || (exists i: nat :: i < |table| && Denial(tok, table[i].name))
      || (tok != "" && (forall n :: !Denial(tok, n)) && exists i: nat :: FirstNamed(table, i, tok) && table[i].pair)
  {
    FindIs(table, tok);
    if Denies(tok) {
      var name := tok[3..];
      assert tok == "no-" + name && Denial(tok, name);
      FindIs(table, name);
      forall n | Denial(tok, n)
        ensures n == name
      {
        assert tok[3..] == n;
      }
    } else {
      forall n
        ensures !Denial(tok, n)
      {
        assert ("no-" + n)[..3] == "no-";
      }
    }
    hide Find, Denial, FirstNamed;
    if i: nat :| FirstNamed(table, i, tok) && table[i].pair { OneFirst(table, i, tok); }
  }

  lemma OneFirst(table: seq<OptRow>, i: nat, name: string)
    requires FirstNamed(table, i, name)
    ensures forall j: nat :: FirstNamed(table, j, name) ==> j == i
    ensures Find(table, name) == Some(table[i])
  {
    FindIs(table, name);
  }

  predicate AllLegal(table: seq<OptRow>, toks: seq<string>) { forall t :: t in toks ==> Legal(table, t) }

  lemma {:induction false} NextCommaAt(s: string, i: nat, e: nat)
    requires i <= e <= |s| && (forall j :: i <= j < e ==> s[j] != ',') && (e < |s| ==> s[e] == ',')
    ensures NextComma(s, i) == e
    decreases e - i
  {
    if i < e { NextCommaAt(s, i + 1, e); }
  }

  /** Splitting at an offset that a token starts at. */
  lemma SplitAt(s: string, p: nat)
    requires p <= |s|
    ensures var e := NextComma(s, p);
      Split(s[p..]) == [s[p..e]] + if e == |s| then [] else Split(s[e + 1..])
  {
    hide NextComma, Split;
    CutTwice(s, p, NextComma(s, p));
    SplitOnce(s[p..]);
    CommaIn(s, p);
  }

  lemma CommaIn(s: string, p: nat)
    requires p <= |s|
    ensures NextComma(s[p..], 0) == NextComma(s, p) - p
  {
    hide NextComma;
    CutIndex(s, p);
    NextCommaAt(s[p..], 0, NextComma(s, p) - p);
  }

  lemma SplitOnce(s: string)
    ensures var e := NextComma(s, 0); Split(s) == [s[..e]] + if e == |s| then [] else Split(s[e + 1..])
  {
    assert s[..|s|] == s && [s] + [] == [s];
    hide NextComma;
  }

  lemma CutTwice(s: string, p: nat, e: nat)
    requires p <= e <= |s|
    ensures s[p..][..e - p] == s[p..e] && (e < |s| ==> s[p..][e - p + 1..] == s[e + 1..])
    ensures e == |s| ==> s[p..e] == s[p..]
  {
  }

  lemma CutIndex(s: string, p: nat)
    requires p <= |s|
    ensures forall i :: 0 <= i < |s| - p ==> s[p..][i] == s[p + i]
  {
  }

  // ----- the program -----

  datatype Refusal = Empty | Unknown(tok: string) | OnlyDeny(tok: string)

  function Refuse(table: seq<OptRow>, tok: string): Refusal {
    if tok == "" then Empty
    else if Denies(tok) || Find(table, tok).None? then Unknown(tok)
    else OnlyDeny(tok)
  }

  predicate NamesFirstIllegal(table: seq<OptRow>, toks: seq<string>, refusal: Option<Refusal>) {
    exists i :: 0 <= i < |toks| && !Legal(table, toks[i]) && AllLegal(table, toks[..i]) &&
                refusal == Some(Refuse(table, toks[i]))
  }

  lemma FirstIllegal(table: seq<OptRow>, toks: seq<string>, before: seq<string>, rest: seq<string>)
    requires toks == before + rest && rest != [] && AllLegal(table, before) && !Legal(table, rest[0])
    ensures NamesFirstIllegal(table, toks, Some(Refuse(table, rest[0]))) && !AllLegal(table, toks)
  {
    hide Legal, Refuse;
    assert toks[|before|] == rest[0] && toks[..|before|] == before;
  }

  /** One token: nothing, or why it is refused. */
  method CheckToken(table: seq<OptRow>, tok: string) returns (refusal: Option<Refusal>)
    ensures refusal == if Legal(table, tok) then None else Some(Refuse(table, tok))
  {
    if |tok| == 0 { return Some(Empty); }
    var deny := |tok| > 3 && tok[..3] == "no-";
    var o := if deny then Find(table, tok[3..]) else Find(table, tok);
    if o.None? { return Some(Unknown(tok)); }
    if !deny && !o.value.pair { return Some(OnlyDeny(tok)); }
    return None;
  }

  /** Accepts exactly the empty string and the strings whose comma-separated tokens are all legal; otherwise the
      refusal names the first illegal token. */
  method OptsCheck(table: seq<OptRow>, str: string) returns (ok: bool, refusal: Option<Refusal>)
    ensures ok <==> str == "" || AllLegal(table, Split(str))
    ensures ok <==> refusal.None?
    ensures !ok ==> NamesFirstIllegal(table, Split(str), refusal)
  {
    if str == "" { return true, None; }
    ghost var before: seq<string> := [];
    var p := 0;
    CheckStarts(table, str);
    hide Legal, Split, NextComma, Refuse, NamesFirstIllegal, AllLegal, Checked;
    while true
      invariant p <= |str| && Checked(table, str, p, before)
      decreases |str| - p
    {
      var e := NextComma(str, p);
      var tok := str[p..e];
      CheckStep(table, str, p, before);
      refusal := CheckToken(table, tok);
      if refusal.Some? { return false, refusal; }
      before := before + [tok];
      if e == |str| { return true, None; }
      p := e + 1;
    }
  }

  /** The tokens before offset `p` are `before`, and legal. */
  ghost predicate Checked(table: seq<OptRow>, str: string, p: nat, before: seq<string>) {
    p <= |str| && Split(str) == before + Split(str[p..]) && AllLegal(table, before)
  }

  lemma CheckStarts(table: seq<OptRow>, str: string)
    ensures Checked(table, str, 0, [])
  {
    assert str[0..] == str;
  }

  lemma CheckStep(table: seq<OptRow>, str: string, p: nat, before: seq<string>)
    requires p <= |str| && Checked(table, str, p, before)
    ensures var e := NextComma(str, p); var tok := str[p..e];
            && p <= e <= |str|
            && (!Legal(table, tok) ==>
                  NamesFirstIllegal(table, Split(str), Some(Refuse(table, tok))) && !AllLegal(table, Split(str)))
            && (Legal(table, tok) && e == |str| ==> AllLegal(table, Split(str)))
            && (Legal(table, tok) && e < |str| ==> Checked(table, str, e + 1, before + [tok]))
  {
    hide Legal, Split, NextComma, Refuse, NamesFirstIllegal, AllLegal;
    var e := NextComma(str, p);
    var tok := str[p..e];
    SplitAt(str, p);
    Regroup(before, tok, if e == |str| then [] else Split(str[e + 1..]));
    if Legal(table, tok) {
      OneMoreLegal(table, before, tok);
    } else {
      FirstIllegal(table, Split(str), before, Split(str[p..]));
    }
  }

  lemma Regroup(before: seq<string>, tok: string, rest: seq<string>)
    ensures before + ([tok] + rest) == (before + [tok]) + rest
    ensures (before + [tok]) + [] == before + [tok]
  {
  }

  lemma OneMoreLegal(table: seq<OptRow>, toks: seq<string>, tok: string)
    requires AllLegal(table, toks) && Legal(table, tok)
    ensures AllLegal(table, toks + [tok])
  {
    hide Legal;
  }

  /** Whether some token is exactly `no-` and the name. */
  method OptDenied(opts: string, name: string) returns (denied: bool)
    ensures denied <==> ("no-" + name) in Split(opts)
  {
    hide Split, NextComma;
    var p := 0;
    ghost var before: seq<string> := [];
    assert opts[0..] == opts;
    while p < |opts|
      invariant p <= |opts| && Split(opts) == before + Split(opts[p..]) && ("no-" + name) !in before
      decreases |opts| - p
    {
      var e := NextComma(opts, p);
      SplitAt(opts, p);
      var tok := opts[p..e];
      assert ("no-" + name)[..3] == "no-" && ("no-" + name)[3..] == name;
      if |tok| == |name| + 3 && tok[..3] == "no-" && tok[3..] == name {
        assert tok == "no-" + name && tok in Split(opts);
        return true;
      }
      before := before + [tok];
      if e == |opts| {
        assert Split(opts) == before;
        return false;
      }
      p := e + 1;
    }
    assert opts[p..] == "";
    LoneToken("");
    assert "no-" + name != "";
    return false;
  }

  lemma LoneToken(t: string)
    requires ',' !in t
    ensures Split(t) == [t]
  {
    NextCommaAt(t, 0, |t|);
  }

  /** One more option at the end of the string. */
  lemma {:induction false} SplitMore(s: string, t: string)
    requires ',' !in t
    ensures Split(s + "," + t) == Split(s) + [t]
    decreases |s|
  {
    var u, e := s + "," + t, NextComma(s, 0);
    NextCommaAt(u, 0, e);
    assert u[..e] == s[..e];
    if e == |s| {
      assert u[..e] == s && u[e + 1..] == t;
      LoneToken(t);
    } else {
      assert u[e + 1..] == s[e + 1..] + "," + t;
      SplitMore(s[e + 1..], t);
    }
  }

  // ----- the first-match walk -----

  /** What the walk reads of one table row; `passes` is the gate's verdict on its contract (`fields` the declined
      ones) and `holds` its predicate, both taken as given. */
  datatype Row = Row(slot: int, deny: nat, opt: Option<string>, passes: bool, fields: nat, holds: bool)

  /** The table: its rows, and whether it has slots at all. */
  datatype Table = Table(rows: seq<Row>, slotted: bool)

  predicate InSlot(t: Table, slot: int, r: Row) { !t.slotted || r.slot == slot }

  predicate DeniedRow(r: Row, denies: nat, opts: string) {
    And(r.deny, denies) != 0 || (r.opt.Some? && ("no-" + r.opt.value) in Split(opts))
  }

  /** A row is denied exactly when it and the caller have a deny bit in common, or the string denies its option. */
  lemma DeniedIff(r: Row, denies: nat, opts: string)
    ensures DeniedRow(r, denies, opts) <==>
      (exists i: nat :: Bit(r.deny, i) && Bit(denies, i)) || (r.opt.Some? && "no-" + r.opt.value in Split(opts))
  {
    CommonBit(r.deny, denies);
    hide And, Split;
  }

  lemma CommonBit(a: nat, b: nat)
    ensures And(a, b) != 0 <==> exists i: nat :: Bit(a, i) && Bit(b, i)
  {
    var c := And(a, b);
    hide And, Bit;
    if c != 0 {
      SomeBit(c);
      var i: nat :| Bit(c, i);
      AndBit(a, b, i);
      assert Bit(a, i) && Bit(b, i);
    }
    if i: nat :| Bit(a, i) && Bit(b, i) {
      AndBit(a, b, i);
      NoBits(i);
    }
  }

  lemma NoBits(i: nat)
    ensures !Bit(0, i)
  {
  }

  lemma {:induction false} SomeBit(c: nat)
    requires c != 0
    ensures exists i: nat :: Bit(c, i)
    decreases c
  {
    hide Bit;
    BitHalf(c, 0);
    if c % 2 == 1 {
      assert Bit(c, 0);
    } else {
      SomeBit(c / 2);
      var i: nat :| Bit(c / 2, i);
      BitHalf(c, i);
      assert Bit(c, i + 1);
    }
  }

  /** A row of the slot that no deny, no gate and no predicate holds back. */
  predicate Serves(t: Table, slot: int, denies: nat, opts: string, r: Row) {
    InSlot(t, slot, r) && !DeniedRow(r, denies, opts) && r.passes && r.holds
  }

  /** The declined fields of the last row the gate declined among the first `n`. */
  function LastDeclined(t: Table, slot: int, denies: nat, opts: string, n: nat, why: nat): nat
    requires n <= |t.rows|
  {
    if n == 0 then why
    else
      var r := t.rows[n - 1];
      if InSlot(t, slot, r) && !DeniedRow(r, denies, opts) && !r.passes then r.fields
      else LastDeclined(t, slot, denies, opts, n - 1, why)
  }

  method WalkRow(r: Row, denies: nat, opts: string, why0: nat) returns (chosen: bool, why: nat)
    ensures chosen <==> !DeniedRow(r, denies, opts) && r.passes && r.holds
    ensures why == if !DeniedRow(r, denies, opts) && !r.passes then r.fields else why0
  {
    why := why0;
    if And(r.deny, denies) != 0 { return false, why; }
    if r.opt.Some? {
      var d := OptDenied(opts, r.opt.value);
      if d { return false, why; }
    }
    if !r.passes { return false, r.fields; }
    return r.holds, why;
  }

  /** The first serving row of the slot, or the row count; `why` keeps the last declined row's fields. */
  method KitWalk(t: Table, slot: int, denies: nat, opts: string, why0: nat) returns (i: nat, why: nat)
    ensures i <= |t.rows|
    ensures i < |t.rows| ==> Serves(t, slot, denies, opts, t.rows[i])
    ensures forall j :: 0 <= j < i ==> !Serves(t, slot, denies, opts, t.rows[j])
    ensures why == LastDeclined(t, slot, denies, opts, i, why0)
  {
    hide DeniedRow;
    var any := false;
    for k := 0 to |t.rows|
      invariant !any ==> forall j :: 0 <= j < k ==> !InSlot(t, slot, t.rows[j])
    {
      if InSlot(t, slot, t.rows[k]) { any := true; }
    }
    why := why0;
    if !any {
      NoneDeclined(t, slot, denies, opts, |t.rows|, why0);
      return |t.rows|, why;
    }
    i := 0;
    while i < |t.rows|
      invariant i <= |t.rows|
      invariant forall j :: 0 <= j < i ==> !Serves(t, slot, denies, opts, t.rows[j])
      invariant why == LastDeclined(t, slot, denies, opts, i, why0)
    {
      if InSlot(t, slot, t.rows[i]) {
        var chosen;
        chosen, why := WalkRow(t.rows[i], denies, opts, why);
        if chosen { return; }
      }
      i := i + 1;
    }
  }

  lemma {:induction false} NoneDeclined(t: Table, slot: int, denies: nat, opts: string, n: nat, why: nat)
    requires n <= |t.rows| && forall j :: 0 <= j < n ==> !InSlot(t, slot, t.rows[j])
    ensures LastDeclined(t, slot, denies, opts, n, why) == why
    decreases n
  {
    if n > 0 { NoneDeclined(t, slot, denies, opts, n - 1, why); }
  }

  /** A row that the gate declines. */
  predicate Declined(t: Table, slot: int, denies: nat, opts: string, r: Row) {
    InSlot(t, slot, r) && !DeniedRow(r, denies, opts) && !r.passes
  }

  /** The walk tells the fields of the last row before its choice that the gate declined, if there is one. */
  lemma {:induction false} DeclinedMeans(t: Table, slot: int, denies: nat, opts: string, n: nat, why: nat)
    requires n <= |t.rows|
    ensures var f := LastDeclined(t, slot, denies, opts, n, why);
      if forall j :: 0 <= j < n ==> !Declined(t, slot, denies, opts, t.rows[j]) then f == why
      else exists j: nat :: j < n && Declined(t, slot, denies, opts, t.rows[j]) && f == t.rows[j].fields &&
             forall m :: j < m < n ==> !Declined(t, slot, denies, opts, t.rows[m])
    decreases n
  {
    hide DeniedRow;
    if n > 0 {
      var r := t.rows[n - 1];
      assert LastDeclined(t, slot, denies, opts, n, why) ==
        if Declined(t, slot, denies, opts, r) then r.fields else LastDeclined(t, slot, denies, opts, n - 1, why);
      hide Declined, LastDeclined;
      DeclinedMeans(t, slot, denies, opts, n - 1, why);
    }
  }

  /** Row `i` is the walk's choice. */
  predicate Chosen(t: Table, slot: int, denies: nat, opts: string, i: nat) {
    i <= |t.rows| && (i < |t.rows| ==> Serves(t, slot, denies, opts, t.rows[i])) &&
    forall j :: 0 <= j < i ==> !Serves(t, slot, denies, opts, t.rows[j])
  }

  /** An option string with one more denial. */
  function Denying(opts: string, name: string): string {
    if opts == "" then "no-" + name else opts + "," + ("no-" + name)
  }

  /** Denying one more name changes the choice only if it is the chosen row's own. */
  lemma DenyAnother(t: Table, slot: int, denies: nat, opts: string, name: string, i: nat)
    requires ',' !in name && Chosen(t, slot, denies, opts, i)
    ensures Chosen(t, slot, denies, Denying(opts, name), i) <==> i == |t.rows| || t.rows[i].opt != Some(name)
  {
    if opts == "" {
      LoneToken("no-" + name);
      LoneToken("");
      assert "" != "no-" + name;
    } else {
      SplitMore(opts, "no-" + name);
    }
    if i < |t.rows| && t.rows[i].opt.Some? {
      var own := t.rows[i].opt.value;
      assert ("no-" + own)[3..] == own && ("no-" + name)[3..] == name;
    }
  }
}
