/** The rows of one kind: a key (byte, byte pair or code point) to its count, zero counts left out.
    Counts are `uint64_t`, so every sum is taken modulo 2^64. */
module Rows {
  import opened Bits

  type pos64 = x: int | 0 < x < U64 witness 1
  type Rows = map<nat, pos64>

  function Get(m: Rows, k: nat): u64 { if k in m then m[k] else 0 }

  /** Unsigned 64-bit addition. */
  function Plus(a: u64, b: u64): u64 { if a + b < U64 then a + b else a + b - U64 }

  function Wrap(x: int): u64 { x % 0x1_0000_0000_0000_0000 }

  lemma PlusWraps(x: int, b: u64)
    ensures Wrap(x + b) == Plus(Wrap(x), b)
  {
  }

  function Set(m: Rows, k: nat, c: u64): Rows { if c == 0 then m - {k} else m[k := c] }

  function Add(m: Rows, k: nat, c: u64): Rows { Set(m, k, Plus(Get(m, k), c)) }

  /** The rows of a stream of keys, each counted once. */
  function Tally(keys: seq<nat>): Rows {
    if keys == [] then map[] else Add(Tally(keys[..|keys| - 1]), keys[|keys| - 1], 1)
  }

  function Merge(a: Rows, b: Rows): Rows {
    map k | k in a.Keys + b.Keys && Plus(Get(a, k), Get(b, k)) != 0 :: Plus(Get(a, k), Get(b, k))
  }

  function MergeAll(parts: seq<Rows>): Rows {
    if parts == [] then map[] else Merge(MergeAll(parts[..|parts| - 1]), parts[|parts| - 1])
  }

  function Flatten<T>(xss: seq<seq<T>>): seq<T> {
    if xss == [] then [] else Flatten(xss[..|xss| - 1]) + xss[|xss| - 1]
  }

  lemma Extensional(a: Rows, b: Rows)
    requires forall k: nat :: Get(a, k) == Get(b, k)
    ensures a == b
  {
    forall k | k in a.Keys + b.Keys
      ensures k in a && k in b && a[k] == b[k]
    {
      assert Get(a, k) == Get(b, k);
    }
  }

  lemma MergeGet(a: Rows, b: Rows, k: nat)
    ensures Get(Merge(a, b), k) == Plus(Get(a, k), Get(b, k))
  {
    if k !in a.Keys + b.Keys {
      assert Get(a, k) == 0 == Get(b, k);
    } else {
      var sum := Plus(Get(a, k), Get(b, k));
      assert k in Merge(a, b) <==> sum != 0;
    }
  }

  lemma EmptyGet(k: nat)
    ensures Get(map[], k) == 0 == Wrap(0)
  {
  }

  lemma AddGet(m: Rows, k: nat, c: u64, j: nat)
    ensures Get(Add(m, k, c), j) == if j == k then Plus(Get(m, k), c) else Get(m, j)
  {
  }

  lemma PlusAssoc(a: u64, b: u64, c: u64)
    ensures Plus(Plus(a, b), c) == Plus(a, Plus(b, c))
  {
  }

  lemma MergeUnit(a: Rows)
    ensures Merge(a, map[]) == a
  {
    hide Merge;
    forall k: nat
      ensures Get(Merge(a, map[]), k) == Get(a, k)
    {
      MergeGet(a, map[], k);
    }
    Extensional(Merge(a, map[]), a);
  }

  lemma AddMergeAt(a: Rows, b: Rows, k: nat, c: u64, j: nat)
    ensures Get(Merge(a, Add(b, k, c)), j) == Get(Add(Merge(a, b), k, c), j)
  {
    hide Merge, Add, Get, Plus;
    MergeGet(a, b, j);
    MergeGet(a, Add(b, k, c), j);
    AddGet(b, k, c, j);
    AddGet(Merge(a, b), k, c, j);
    PlusAssoc(Get(a, k), Get(b, k), c);
  }

  lemma AddMerge(a: Rows, b: Rows, k: nat, c: u64)
    ensures Merge(a, Add(b, k, c)) == Add(Merge(a, b), k, c)
  {
    hide *;
    forall j: nat
      ensures Get(Merge(a, Add(b, k, c)), j) == Get(Add(Merge(a, b), k, c), j)
    {
      AddMergeAt(a, b, k, c, j);
    }
    Extensional(Merge(a, Add(b, k, c)), Add(Merge(a, b), k, c));
  }

  function Occurs(keys: seq<nat>, k: nat): nat { multiset(keys)[k] }

  lemma OccursSnoc(init: seq<nat>, last: nat, k: nat)
    ensures Occurs(init + [last], k) == Occurs(init, k) + if last == k then 1 else 0
  {
  }

  /** A row holds its key's number of occurrences, modulo 2^64. */
  lemma {:induction false} TallyCounts(keys: seq<nat>, k: nat)
    ensures Get(Tally(keys), k) == Wrap(Occurs(keys, k))
  {
    hide Add, Get, Plus, Wrap;
    if keys == [] {
      EmptyGet(k);
    } else {
      var init, last := keys[..|keys| - 1], keys[|keys| - 1];
      assert keys == init + [last];
      TallyCounts(init, k);
      AddGet(Tally(init), last, 1, k);
      OccursSnoc(init, last, k);
      PlusWraps(Occurs(init, k), 1);
    }
  }

  /** Counting a stream in two pieces and merging is counting it whole. */
  lemma {:induction false} TallyConcat(a: seq<nat>, b: seq<nat>)
    ensures Tally(a + b) == Merge(Tally(a), Tally(b))
    decreases |b|
  {
    hide Merge, Add;
    if b == [] {
      assert a + b == a;
      MergeUnit(Tally(a));
    } else {
      var init, last := b[..|b| - 1], b[|b| - 1];
      assert (a + b)[..|a + b| - 1] == a + init;
      TallyConcat(a, init);
      AddMerge(Tally(a), Tally(init), last, 1);
    }
  }

  /** Merging the tallies of the pieces is tallying the pieces in a row. */
  lemma {:induction false} MergeAllTally(parts: seq<Rows>, pieces: seq<seq<nat>>)
    requires |parts| == |pieces| && forall i :: 0 <= i < |pieces| ==> parts[i] == Tally(pieces[i])
    ensures MergeAll(parts) == Tally(Flatten(pieces))
    decreases |pieces|
  {
    hide Merge, Add;
    if pieces != [] {
      var n := |pieces| - 1;
      MergeAllTally(parts[..n], pieces[..n]);
      TallyConcat(Flatten(pieces[..n]), pieces[n]);
    }
  }

  // ----- the order of the parts does not matter -----

  function Total(parts: seq<Rows>, k: nat): int {
    if parts == [] then 0 else Total(parts[..|parts| - 1], k) + Get(parts[|parts| - 1], k)
  }

  lemma {:induction false} MergeAllTotal(parts: seq<Rows>, k: nat)
    ensures Get(MergeAll(parts), k) == Wrap(Total(parts, k))
  {
    hide Merge, Get, Plus, Wrap;
    if parts == [] {
      EmptyGet(k);
    } else {
      var init, last := parts[..|parts| - 1], parts[|parts| - 1];
      MergeAllTotal(init, k);
      MergeGet(MergeAll(init), last, k);
      PlusWraps(Total(init, k), Get(last, k));
    }
  }

  lemma TotalSnoc(init: seq<Rows>, last: Rows, k: nat)
    ensures Total(init + [last], k) == Total(init, k) + Get(last, k)
  {
    assert (init + [last])[..|init|] == init;
  }

  lemma {:induction false} TotalRemove(parts: seq<Rows>, i: nat, k: nat)
    requires i < |parts|
    ensures Total(parts, k) == Total(parts[..i] + parts[i + 1..], k) + Get(parts[i], k)
    decreases |parts|
  {
    hide Get, Total;
    var n := |parts| - 1;
    assert parts == parts[..n] + [parts[n]];
    TotalSnoc(parts[..n], parts[n], k);
    if i < n {
      var mid := parts[..i] + parts[i + 1..n];
      TotalRemove(parts[..n], i, k);
      assert parts[..n][..i] + parts[..n][i + 1..] == mid;
      assert parts[..i] + parts[i + 1..] == mid + [parts[n]];
      TotalSnoc(mid, parts[n], k);
    } else {
      assert parts[..i] + parts[i + 1..] == parts[..n];
    }
  }

  lemma {:induction false} TotalPermuted(p: seq<Rows>, q: seq<Rows>, k: nat)
    requires multiset(p) == multiset(q)
    ensures Total(p, k) == Total(q, k)
    decreases |p|
  {
    hide Get;
    if p == [] {
      assert |multiset(q)| == |q|;
    } else {
      var n := |p| - 1;
      var i := SamePlace(p, q);
      hide Total;
      TotalPermuted(p[..n], q[..i] + q[i + 1..], k);
      TotalRemove(q, i, k);
      TotalRemove(p, n, k);
      assert p[..n] + p[n + 1..] == p[..n];
    }
  }

  /** The last element of one permutation, found in the other and taken out of both. */
  lemma SamePlace(p: seq<Rows>, q: seq<Rows>) returns (i: nat)
    requires multiset(p) == multiset(q) && p != []
    ensures i < |q| && q[i] == p[|p| - 1] && multiset(p[..|p| - 1]) == multiset(q[..i] + q[i + 1..])
  {
    var n := |p| - 1;
    assert p[n] in multiset(p);
    i :| 0 <= i < |q| && q[i] == p[n];
    Without(q, i);
    Without(p, n);
    assert p[..n] + p[n + 1..] == p[..n];
  }

  lemma Without<T>(q: seq<T>, i: nat)
    requires i < |q|
    ensures multiset(q[..i] + q[i + 1..]) == multiset(q) - multiset{q[i]}
  {
    assert q == q[..i] + [q[i]] + q[i + 1..];
  }

  /** Merging any permutation of the parts gives the same rows, even where a total wraps. */
  lemma MergeAllPermuted(p: seq<Rows>, q: seq<Rows>)
    requires multiset(p) == multiset(q)
    ensures MergeAll(p) == MergeAll(q)
  {
    forall k: nat
      ensures Get(MergeAll(p), k) == Get(MergeAll(q), k)
    {
      MergeAllTotal(p, k);
      MergeAllTotal(q, k);
      TotalPermuted(p, q, k);
    }
    Extensional(MergeAll(p), MergeAll(q));
  }

  // ----- rows written out in ascending key order -----

  datatype Row = Row(key: nat, count: pos64)

  ghost predicate Lists(rows: seq<Row>, m: Rows) {
    && (forall r :: r in rows ==> r.key in m && m[r.key] == r.count)
    && (forall k :: k in m ==> Row(k, m[k]) in rows)
    && (forall i, j :: 0 <= i < j < |rows| ==> rows[i].key != rows[j].key)
  }

  predicate Ascending(rows: seq<Row>) {
    forall i, j :: 0 <= i < j < |rows| ==> rows[i].key < rows[j].key
  }

  /** An ascending list of a map's rows is unique: two tables list alike exactly when they denote the same rows. */
  lemma {:induction false} ListingUnique(a: seq<Row>, m: Rows, b: seq<Row>, m': Rows)
    requires Lists(a, m) && Ascending(a) && Lists(b, m') && Ascending(b)
    ensures a == b <==> m == m'
    decreases |a|
  {
    if m == m' {
      AscendingSame(a, b, m);
    }
    if a == b {
      forall k: nat
        ensures Get(m, k) == Get(m', k)
      {
        if k in m { assert Row(k, m[k]) in b; }
        if k in m' { assert Row(k, m'[k]) in a; }
      }
      Extensional(m, m');
    }
  }

  lemma {:induction false} AscendingSame(a: seq<Row>, b: seq<Row>, m: Rows)
    requires Lists(a, m) && Ascending(a) && Lists(b, m) && Ascending(b)
    ensures a == b
    decreases |a|
  {
    hide Lists, Ascending;
    if a == [] || b == [] {
      NoRows(a, m);
      NoRows(b, m);
    } else {
      LastIsTop(a, m);
      LastIsTop(b, m);
      var k := a[|a| - 1].key;
      assert b[|b| - 1].key == k;
      DropLast(a, m);
      DropLast(b, m);
      AscendingSame(a[..|a| - 1], b[..|b| - 1], m - {k});
      assert a == a[..|a| - 1] + [a[|a| - 1]];
      assert b == b[..|b| - 1] + [b[|b| - 1]];
    }
  }

  lemma NoRows(a: seq<Row>, m: Rows)
    requires Lists(a, m)
    ensures a == [] <==> m == map[]
  {
    if a != [] { assert a[0] in a; }
  }

  lemma LastIsTop(a: seq<Row>, m: Rows)
    requires Lists(a, m) && Ascending(a) && a != []
    ensures var last := a[|a| - 1]; last.key in m && m[last.key] == last.count && forall k :: k in m ==> k <= last.key
  {
    assert a[|a| - 1] in a;
    forall k | k in m
      ensures k <= a[|a| - 1].key
    {
      assert Row(k, m[k]) in a;
    }
  }

  lemma DropLast(a: seq<Row>, m: Rows)
    requires Lists(a, m) && a != []
    ensures Lists(a[..|a| - 1], m - {a[|a| - 1].key})
    ensures Ascending(a) ==> Ascending(a[..|a| - 1])
  {
    var init, last := a[..|a| - 1], a[|a| - 1];
    assert a == init + [last];
    forall k | k in m && k != last.key
      ensures Row(k, m[k]) in init
    {
      assert Row(k, m[k]) in a;
    }
    forall r | r in init
      ensures r in a && r.key != last.key
    {
    }
  }

  lemma AddLast(a: seq<Row>, m: Rows, k: nat, c: pos64)
    requires Lists(a, m) && k !in m
    ensures Lists(a + [Row(k, c)], m[k := c])
  {
    var a', m' := a + [Row(k, c)], m[k := c];
    forall j | j in m'
      ensures Row(j, m'[j]) in a'
    {
      if j != k { assert Row(j, m[j]) in a; }
      assert a'[|a|] == Row(k, c);
    }
    forall r | r in a'
      ensures r.key in m' && m'[r.key] == r.count
    {
    }
    forall i | 0 <= i < |a|
      ensures a'[i].key != k
    {
      assert a[i] in a;
    }
  }

  lemma {:induction false} HasTop(s: set<nat>)
    requires s != {}
    ensures exists k :: k in s && forall j :: j in s ==> j <= k
    decreases s
  {
    var x :| x in s;
    var rest := s - {x};
    if rest == {} {
      OneTop(s, x, x);
    } else {
      HasTop(rest);
      var y :| y in rest && forall j :: j in rest ==> j <= y;
      OneTop(s, x, y);
    }
  }

  lemma OneTop(s: set<nat>, x: nat, y: nat)
    requires x in s && y in s && forall j :: j in s - {x} ==> j <= y
    ensures exists k :: k in s && forall j :: j in s ==> j <= k
  {
    var top := if x < y then y else x;
    forall j | j in s
      ensures j <= top
    {
      assert j != x ==> j in s - {x};
    }
  }

  lemma AddTop(init: seq<Row>, m: Rows, k: nat)
    requires k in m && (forall j :: j in m ==> j <= k) && Lists(init, m - {k}) && Ascending(init)
    ensures Lists(init + [Row(k, m[k])], m) && Ascending(init + [Row(k, m[k])])
  {
    AddLast(init, m - {k}, k, m[k]);
    assert m == (m - {k})[k := m[k]];
    assert forall i :: 0 <= i < |init| ==> init[i] in init;
  }

  /** The rows in ascending key order. */
  ghost function Listing(m: Rows): (r: seq<Row>)
    ensures Lists(r, m) && Ascending(r)
    decreases |m|
  {
    hide Lists, Ascending;
    if m == map[] then
      NoListing();
      []
    else
      HasTop(m.Keys);
      var k :| k in m && forall j :: j in m ==> j <= k;
      AddTop(Listing(m - {k}), m, k);
      Listing(m - {k}) + [Row(k, m[k])]
  }

  lemma NoListing()
    ensures Lists([], map[]) && Ascending([])
  {
  }

  // ----- sorting rows (the C library's `qsort` over distinct keys) -----

  function InsertRow(rows: seq<Row>, r: Row): seq<Row> {
    var n := |rows| - 1;
    if n < 0 || rows[n].key < r.key then rows + [r] else InsertRow(rows[..n], r) + [rows[n]]
  }

  function SortRows(rows: seq<Row>): seq<Row> {
    if rows == [] then [] else InsertRow(SortRows(rows[..|rows| - 1]), rows[|rows| - 1])
  }

  lemma {:induction false} InsertRowLists(rows: seq<Row>, m: Rows, r: Row)
    requires Lists(rows, m) && Ascending(rows) && r.key !in m
    ensures Lists(InsertRow(rows, r), m[r.key := r.count]) && Ascending(InsertRow(rows, r))
    decreases |rows|
  {
    hide Lists, Ascending;
    var n, m' := |rows| - 1, m[r.key := r.count];
    NoRows(rows, m);
    if n >= 0 { LastIsTop(rows, m); }
    if n < 0 || rows[n].key < r.key {
      assert m' - {r.key} == m;
      AddTop(rows, m', r.key);
    } else {
      var last := rows[n];
      DropLast(rows, m);
      InsertRowLists(rows[..n], m - {last.key}, r);
      assert (m - {last.key})[r.key := r.count] == m' - {last.key};
      AddTop(InsertRow(rows[..n], r), m', last.key);
    }
  }

  lemma {:induction false} SortRowsLists(rows: seq<Row>, m: Rows)
    requires Lists(rows, m)
    ensures SortRows(rows) == Listing(m)
    decreases |rows|
  {
    hide Lists, Ascending;
    NoRows(rows, m);
    if rows == [] {
      NoListing();
    } else {
      var n, last := |rows| - 1, rows[|rows| - 1];
      DropLast(rows, m);
      SortRowsLists(rows[..n], m - {last.key});
      LastHeld(rows, m);
      InsertRowLists(SortRows(rows[..n]), m - {last.key}, last);
      assert (m - {last.key})[last.key := last.count] == m;
    }
    AscendingSame(SortRows(rows), Listing(m), m);
  }

  lemma LastHeld(a: seq<Row>, m: Rows)
    requires Lists(a, m) && a != []
    ensures var last := a[|a| - 1]; last.key in m && m[last.key] == last.count
  {
    assert a[|a| - 1] in a;
  }
}
