/** The library names an art records (memfn/src/compose.c, `mf_art_note_libc`) and the stamp written from them. */
module LibcNames {
  import opened FormLex
  import Options

  // ----- `strcmp` -----

  predicate Less(a: string, b: string)
    decreases |a|
  {
    b != "" && (a == "" || a[0] < b[0] || (a[0] == b[0] && Less(a[1..], b[1..])))
  }

  lemma {:induction false} LessTotal(a: string, b: string)
    ensures Less(a, b) || a == b || Less(b, a)
    ensures !(Less(a, b) && Less(b, a)) && !Less(a, a)
    decreases |a|
  {
    if a != "" {
      LessTotal(a[1..], a[1..]);
      if b != "" && a[0] == b[0] {
        LessTotal(a[1..], b[1..]);
        assert a == [a[0]] + a[1..] && b == [b[0]] + b[1..];
      }
    }
  }

  lemma {:induction false} LessTrans(a: string, b: string, c: string)
    requires Less(a, b) && Less(b, c)
    ensures Less(a, c)
    decreases |a|
  {
    if a != "" && a[0] == b[0] == c[0] { LessTrans(a[1..], b[1..], c[1..]); }
  }

  /** The first byte in which the two differ is smaller in `a`. */
  predicate SmallerAt(a: string, b: string, i: nat) { i < |a| && i < |b| && a[..i] == b[..i] && a[i] < b[i] }

  /** A name is less than another exactly when it is a proper prefix of it, or is the smaller one where they first
      differ. */
  lemma {:induction false} LessIff(a: string, b: string)
    ensures Less(a, b) <==> (a <= b && a != b) || exists i: nat :: SmallerAt(a, b, i)
    decreases a
  {
    if a == "" || b == "" {
    } else if a[0] == b[0] {
      LessIff(a[1..], b[1..]);
      assert a <= b && a != b <==> a[1..] <= b[1..] && a[1..] != b[1..] by { SameHead(a, b); }
      if i: nat :| SmallerAt(a[1..], b[1..], i) { Deeper(a, b, i + 1); }
      if i: nat :| SmallerAt(a, b, i) { Deeper(a, b, i); }
    } else {
      if a[0] < b[0] { assert SmallerAt(a, b, 0); }
      forall i: nat | 0 < i
        ensures !SmallerAt(a, b, i)
      {
        if i < |a| && i < |b| { assert a[..i][0] != b[..i][0]; }
      }
    }
  }

  lemma SameHead(a: string, b: string)
    requires a != "" && b != "" && a[0] == b[0]
    ensures a <= b && a != b <==> a[1..] <= b[1..] && a[1..] != b[1..]
  {
    assert a == [a[0]] + a[1..] && b == [b[0]] + b[1..];
    if a <= b { assert a[1..] == b[1..][..|a| - 1]; }
    if a[1..] <= b[1..] {
      assert a[1..] == b[1..][..|a| - 1];
      assert b[..|a|] == [b[0]] + b[1..][..|a| - 1];
      assert a == b[..|a|];
    }
  }

  lemma Deeper(a: string, b: string, i: nat)
    requires a != "" && b != "" && a[0] == b[0] && i > 0
    ensures SmallerAt(a, b, i) <==> SmallerAt(a[1..], b[1..], i - 1)
  {
    if i < |a| && i < |b| {
      assert a[..i] == [a[0]] + a[1..][..i - 1] && b[..i] == [b[0]] + b[1..][..i - 1];
      assert a[1..][..i - 1] == a[..i][1..] && b[1..][..i - 1] == b[..i][1..];
    }
  }

  method StrCmp(a: string, b: string) returns (c: int)
    ensures c < 0 <==> Less(a, b)
    ensures c == 0 <==> a == b
  {
    var i := 0;
    assert a[0..] == a && b[0..] == b;
    while i < |a| && i < |b| && a[i] == b[i]
      invariant i <= |a| && i <= |b| && a[..i] == b[..i]
      invariant Less(a, b) == Less(a[i..], b[i..])
    {
      assert a[i..][1..] == a[i + 1..] && b[i..][1..] == b[i + 1..];
      LessTotal(a[i..], b[i..]);
      i := i + 1;
    }
    assert a == a[..i] + a[i..] && b == b[..i] + b[i..];
    if i < |a| && i < |b| {
      c := a[i] as int - b[i] as int;
      assert a[i] != b[i];
    } else {
      c := if i < |a| then 1 else if i < |b| then -1 else 0;
    }
  }

  // ----- sorted lists without repetition -----

  predicate Sorted(s: seq<string>) { forall i, j :: 0 <= i < j < |s| ==> Less(s[i], s[j]) }

  /** The list after one more name. */
  function Inserted(s: seq<string>, name: string): seq<string> {
    if s == [] then [name]
    else if s[0] == name then s
    else if Less(name, s[0]) then [name] + s
    else [s[0]] + Inserted(s[1..], name)
  }

  /** One more name: the list stays sorted and without repetition, and holds that name and the old ones. */
  lemma {:induction false} InsertedHolds(s: seq<string>, name: string)
    requires Sorted(s)
    ensures Sorted(Inserted(s, name)) && forall x :: x in Inserted(s, name) <==> x in s || x == name
    decreases |s|
  {
    var r := Inserted(s, name);
    if s != [] {
      LessTotal(name, s[0]);
      if Less(name, s[0]) {
        forall j | 0 <= j < |s|
          ensures Less(name, s[j])
        {
          if j > 0 { LessTrans(name, s[0], s[j]); }
        }
      } else if s[0] != name {
        var rest := Inserted(s[1..], name);
        InsertedHolds(s[1..], name);
        forall j | 0 <= j < |rest|
          ensures Less(s[0], rest[j])
        {
          assert rest[j] in rest;
          if rest[j] != name { var k :| 0 <= k < |s[1..]| && s[1..][k] == rest[j]; }
        }
        assert forall x :: x in s <==> x == s[0] || x in s[1..];
      }
    }
  }

  /** A sorted list is determined by the names it holds. */
  lemma {:induction false} SortedUnique(s: seq<string>, t: seq<string>)
    requires Sorted(s) && Sorted(t) && forall x :: x in s <==> x in t
    ensures s == t
    decreases |s|
  {
    assert s != [] ==> s[0] in s;
    assert t != [] ==> t[0] in t;
    if s != [] && t != [] {
      FirstLeast(s, t);
      FirstLeast(t, s);
      LessTotal(s[0], t[0]);
      TailHolds(s);
      TailHolds(t);
      SortedUnique(s[1..], t[1..]);
    }
  }

  lemma FirstLeast(s: seq<string>, t: seq<string>)
    requires Sorted(s) && s != [] && t != [] && forall x :: x in s <==> x in t
    ensures s[0] == t[0] || Less(s[0], t[0])
  {
    assert t[0] in t;
    var k :| 0 <= k < |s| && s[k] == t[0];
  }

  lemma TailHolds(s: seq<string>)
    requires Sorted(s) && s != []
    ensures Sorted(s[1..]) && forall x :: x in s[1..] <==> x in s && x != s[0]
  {
    LessTotal(s[0], s[0]);
    forall x
      ensures x in s[1..] <==> x in s && x != s[0]
    {
      if x in s[1..] { var k :| 0 <= k < |s[1..]| && s[1..][k] == x; assert s[k + 1] == x; }
    }
  }

  // ----- the program -----

  class NameList {
    var libc: array<string>
    var nlibc: nat
    var cap: nat

    ghost predicate Valid()
      reads this, libc
    {
      libc.Length == cap && nlibc <= cap && Sorted(libc[..nlibc])
    }

    constructor ()
      ensures Valid() && nlibc == 0 && fresh(libc)
    {
      libc := new string[0];
      nlibc, cap := 0, 0;
      new;
      assert libc[..0] == [];
    }

    /** Puts a name in its sorted place, once. */
    method Insert(name: string)
      requires Valid()
      modifies this, libc
      ensures Valid() && (libc == old(libc) || fresh(libc))
      ensures libc[..nlibc] == Inserted(old(libc[..nlibc]), name)
    {
      hide Inserted, Sorted;
      InsertedHolds(libc[..nlibc], name);
      var at, hit := PlaceOf(name);
      if !hit { InsertAt(at, name); }
    }

    /** The comma list that the stamp writes. */
    method StampText() returns (text: string)
      requires Valid()
      ensures text == Stamp(libc[..nlibc])
    {
      if nlibc == 0 { return "none"; }
      text := "";
      for i := 0 to nlibc
        invariant i > 0 ==> text == Commas(libc[..i])
        invariant i == 0 ==> text == ""
      {
        ghost var s := libc[..i + 1];
        assert s[..i] == libc[..i];
        text := if i > 0 then text + "," + libc[i] else libc[i];
      }
    }

    /** Where a name stands, or where it belongs. */
    method PlaceOf(name: string) returns (at: nat, hit: bool)
      requires Valid()
      ensures at <= nlibc
      ensures Inserted(libc[..nlibc], name) ==
              if hit then libc[..nlibc] else libc[..nlibc][..at] + [name] + libc[..nlibc][at..]
    {
      ghost var s := libc[..nlibc];
      at, hit := 0, false;
      PlaceStarts(s, name);
      hide Less, Sorted, Inserted, PlacedFrom;
      while at < nlibc
        invariant at <= nlibc && PlacedFrom(s, at, name)
      {
        var c := StrCmp(libc[at], name);
        LessTotal(name, s[at]);
        PlaceStep(s, at, name);
        if c == 0 { return at, true; }
        if c > 0 { break; }
        at := at + 1;
      }
      PlaceIs(s, at, name);
    }

    method InsertAt(at: nat, name: string)
      requires Valid() && at <= nlibc && Sorted(libc[..nlibc][..at] + [name] + libc[..nlibc][at..])
      modifies this`libc, this`cap, this`nlibc, libc
      ensures Valid() && (libc == old(libc) || fresh(libc))
      ensures libc[..nlibc] == old(libc[..nlibc])[..at] + [name] + old(libc[..nlibc])[at..]
    {
      hide Sorted;
      ghost var s := libc[..nlibc];
      if nlibc == cap { Grow(); }
      assert libc[..at] == s[..at] && libc[at..nlibc] == s[at..];
      ShiftFrom(at);
      libc[at] := name;
      nlibc := nlibc + 1;
      assert libc[..nlibc] == s[..at] + [name] + s[at..];
    }

    /** Doubles the table. */
    method Grow()
      requires Valid() && nlibc == cap
      modifies this`libc, this`cap
      ensures Valid() && fresh(libc) && nlibc < cap && libc[..nlibc] == old(libc[..nlibc])
    {
      var newcap := if cap != 0 then cap * 2 else 8;
      var grown := new string[newcap](_ => "");
      var was := libc;
      for i := 0 to nlibc
        invariant forall j :: 0 <= j < i ==> grown[j] == was[j]
      {
        grown[i] := was[i];
      }
      assert grown[..nlibc] == was[..nlibc];
      libc, cap := grown, newcap;
    }

    /** `memmove`: opens a gap at `at`. */
    method ShiftFrom(at: nat)
      requires libc.Length == cap && at <= nlibc < cap
      modifies libc
      ensures libc[..at] == old(libc[..at]) && libc[at + 1..nlibc + 1] == old(libc[at..nlibc])
    {
      ghost var s := libc[..];
      var j := nlibc;
      while j > at
        invariant at <= j <= nlibc && |s| == libc.Length
        invariant libc[..j + 1] == s[..j + 1] && libc[j + 1..nlibc + 1] == s[j..nlibc]
      {
        libc[j] := libc[j - 1];
        assert libc[j] == s[..j + 1][j - 1] == s[j - 1];
        assert libc[..j] == s[..j + 1][..j] == s[..j];
        assert libc[j..nlibc + 1] == [s[j - 1]] + s[j..nlibc] == s[j - 1..nlibc];
        j := j - 1;
      }
      assert libc[..at] == s[..at + 1][..at];
    }
  }

  /** The first `at` names of a list come before `name`. */
  ghost predicate PlacedFrom(s: seq<string>, at: nat, name: string) {
    at <= |s| && Inserted(s, name) == s[..at] + Inserted(s[at..], name)
  }

  lemma PlaceStarts(s: seq<string>, name: string)
    ensures PlacedFrom(s, 0, name)
  {
    assert s[0..] == s;
  }

  lemma PlaceStep(s: seq<string>, at: nat, name: string)
    requires at < |s| && PlacedFrom(s, at, name)
    ensures s[at] == name ==> Inserted(s, name) == s
    ensures s[at] != name && !Less(name, s[at]) ==> PlacedFrom(s, at + 1, name)
  {
    hide Less;
    assert s == s[..at] + s[at..] && s[at..][1..] == s[at + 1..] && s[..at + 1] == s[..at] + [s[at]];
  }

  lemma PlaceIs(s: seq<string>, at: nat, name: string)
    requires PlacedFrom(s, at, name) && (at < |s| ==> Less(name, s[at]))
    ensures Inserted(s, name) == s[..at] + [name] + s[at..]
  {
    LessTotal(name, name);
  }

  // ----- what the list and the stamp say -----

  function Noted(names: seq<string>): seq<string> {
    if names == [] then [] else Inserted(Noted(names[..|names| - 1]), names[|names| - 1])
  }

  lemma {:induction false} NotedHolds(names: seq<string>)
    ensures Sorted(Noted(names)) && forall x :: x in Noted(names) <==> x in names
    decreases |names|
  {
    if names != [] {
      var n := |names| - 1;
      NotedHolds(names[..n]);
      InsertedHolds(Noted(names[..n]), names[n]);
      assert forall x :: x in names <==> x in names[..n] || x == names[n];
    }
  }

  /** The recorded list depends on which names were noted only, not on how often or in which order. */
  lemma NotesOrderFree(xs: seq<string>, ys: seq<string>)
    ensures Noted(xs) == Noted(ys) <==> forall x :: x in xs <==> x in ys
  {
    NotedHolds(xs);
    NotedHolds(ys);
    if forall x :: x in xs <==> x in ys { SortedUnique(Noted(xs), Noted(ys)); }
  }

  function Commas(names: seq<string>): string
    requires names != []
  {
    if |names| == 1 then names[0] else Commas(names[..|names| - 1]) + "," + names[|names| - 1]
  }

  /** The stamp's text. */
  function Stamp(names: seq<string>): string { if names == [] then "none" else Commas(names) }

  lemma {:induction false} CommasSplit(names: seq<string>)
    requires names != [] && forall x :: x in names ==> ',' !in x
    ensures Options.Split(Commas(names)) == names
    decreases |names|
  {
    var n := |names| - 1;
    assert names[n] in names;
    if n == 0 {
      Options.LoneToken(names[0]);
    } else {
      CommasSplit(names[..n]);
      Options.SplitMore(Commas(names[..n]), names[n]);
      assert names == names[..n] + [names[n]];
    }
  }

  /** The stamp tells two lists of identifiers apart, except no name at all from the single name `none`. */
  lemma StampTells(s: seq<string>, t: seq<string>)
    requires forall x :: x in s || x in t ==> IsId(x)
    ensures Stamp(s) == Stamp(t) <==> s == t || (s == [] && t == ["none"]) || (s == ["none"] && t == [])
  {
    forall x | x in s || x in t
      ensures ',' !in x
    {
    }
    if s != [] { CommasSplit(s); }
    if t != [] { CommasSplit(t); }
    Options.LoneToken("none");
    assert Commas(["none"]) == "none";
  }
}
