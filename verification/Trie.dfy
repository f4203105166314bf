/** `trie_stats` of scripts/alt_census.py: a byte trie built from a word list, and a walk over it with an explicit
    stack. Nodes are numbered in creation order, as the script's own id table numbers them. */
module Trie {
  import opened Bits

  type Word = seq<byte>

  // ----- the reference reading: the plain word list -----

  function PrefixesOf(w: Word): set<Word> { set n | 0 <= n <= |w| :: w[..n] }

  /** Every prefix of every word, the empty one included. */
  function Prefixes(words: seq<Word>): set<Word> {
    if words == [] then {[]} else Prefixes(words[..|words| - 1]) + PrefixesOf(words[|words| - 1])
  }

  function Occurs(words: seq<Word>, p: Word): nat {
    if words == [] then 0 else Occurs(words[..|words| - 1], p) + if words[|words| - 1] == p then 1 else 0
  }

  /** How many list entries are prefixes of `p`. */
  function PrefixCount(words: seq<Word>, p: Word): nat {
    if words == [] then 0 else PrefixCount(words[..|words| - 1], p) + if words[|words| - 1] <= p then 1 else 0
  }

  /** The prefix counts of the words among `s`, summed. */
  ghost function SumCounts(words: seq<Word>, s: set<Word>): nat {
    if s == {} then 0
    else var p :| p in s; SumCounts(words, s - {p}) + if p in words then PrefixCount(words, p) else 0
  }

  function Members(words: seq<Word>, s: set<Word>): set<Word> { set p | p in s && p in words }

  // ----- facts about the reference -----

  lemma {:induction false} PrefixesMember(words: seq<Word>, p: Word)
    ensures p in Prefixes(words) <==> p == [] || exists w :: w in words && p <= w
    decreases |words|
  {
    if words != [] {
      var n := |words| - 1;
      PrefixesMember(words[..n], p);
      assert forall w :: w in words <==> w in words[..n] || w == words[n];
      IsPrefixOf(words[n], p);
      assert words[n] in words;
      if p in Prefixes(words[..n]) && p != [] {
        var w :| w in words[..n] && p <= w;
        assert w in words;
      }
    }
  }

  lemma IsPrefixOf(w: Word, p: Word)
    ensures p in PrefixesOf(w) <==> p <= w
  {
    if p <= w { assert w[..|p|] == p; }
  }

  lemma {:induction false} OccursIff(words: seq<Word>, p: Word)
    ensures Occurs(words, p) > 0 <==> p in words
    decreases |words|
  {
    if words != [] {
      var n := |words| - 1;
      OccursIff(words[..n], p);
      assert forall w :: w in words <==> w in words[..n] || w == words[n];
    }
  }

  /** The prefixes of an extended word: the old ones, and the word itself. */
  lemma {:induction false} CountExtend(words: seq<Word>, p: Word, b: byte)
    ensures PrefixCount(words, p + [b]) == PrefixCount(words, p) + Occurs(words, p + [b])
    decreases |words|
  {
    if words != [] {
      var n, w := |words| - 1, words[|words| - 1];
      CountExtend(words[..n], p, b);
      assert w <= p + [b] <==> w <= p || w == p + [b] by {
        if w <= p + [b] && |w| <= |p| { assert w == (p + [b])[..|w|] == p[..|w|]; }
      }
    }
  }

  lemma {:induction false} CountEmpty(words: seq<Word>)
    ensures PrefixCount(words, []) == Occurs(words, [])
    decreases |words|
  {
    if words != [] { CountEmpty(words[..|words| - 1]); }
  }

  lemma {:induction false} CountMonotone(words: seq<Word>, p: Word, q: Word)
    requires p <= q
    ensures PrefixCount(words, p) <= PrefixCount(words, q)
    decreases |words|
  {
    if words != [] { CountMonotone(words[..|words| - 1], p, q); }
  }

  lemma {:induction false} SumAdd(words: seq<Word>, s: set<Word>, x: Word)
    requires x !in s
    ensures SumCounts(words, s + {x}) == SumCounts(words, s) + if x in words then PrefixCount(words, x) else 0
    decreases |s|
  {
    var t := s + {x};
    var p :| p in t && SumCounts(words, t) ==
      SumCounts(words, t - {p}) + if p in words then PrefixCount(words, p) else 0;
    hide SumCounts, PrefixCount;
    if p == x {
      assert t - {x} == s;
    } else {
      var r := s - {p};
      assert t - {p} == r + {x} && r + {p} == s;
      SumAdd(words, r, x);
      SumAdd(words, r, p);
    }
  }

  // ----- the counts as sizes of sets -----

  /** The list entries that are prefixes of `p`. */
  ghost function EntriesBefore(words: seq<Word>, p: Word): set<nat> { set i: nat | i < |words| && words[i] <= p }

  lemma {:induction false} PrefixCountIs(words: seq<Word>, p: Word)
    ensures PrefixCount(words, p) == |EntriesBefore(words, p)|
    decreases |words|
  {
    if words != [] {
      var n := |words| - 1;
      PrefixCountIs(words[..n], p);
      var was := EntriesBefore(words[..n], p);
      assert EntriesBefore(words, p) == was + if words[n] <= p then {n} else {};
      assert n !in was;
    }
  }

  /** The pairs of a word of `s` and a list entry that is its prefix. */
  ghost function Tries(words: seq<Word>, s: set<Word>): set<(Word, nat)> {
    set p, i: nat | p in s && p in words && i < |words| && words[i] <= p :: (p, i)
  }

  /** The count of try sites is the number of pairs of a word and a list entry that is a prefix of it. */
  lemma {:induction false} TriesCounted(words: seq<Word>, s: set<Word>)
    ensures SumCounts(words, s) == |Tries(words, s)|
    decreases |s|
  {
    if p :| p in s {
      var rest := s - {p};
      TriesCounted(words, rest);
      SumAdd(words, rest, p);
      assert rest + {p} == s;
      PrefixCountIs(words, p);
      TriesMore(words, s, p);
      PairsCounted(p, EntriesBefore(words, p));
      hide SumCounts, PrefixCount, Tries, Pairs, EntriesBefore;
    } else {
      assert Tries(words, s) == {};
    }
  }

  ghost function Pairs(p: Word, s: set<nat>): set<(Word, nat)> { set i | i in s :: (p, i) }

  lemma TriesMore(words: seq<Word>, s: set<Word>, p: Word)
    requires p in s
    ensures var rest, own := Tries(words, s - {p}), Pairs(p, EntriesBefore(words, p));
      if p in words then Tries(words, s) == rest + own && rest !! own else Tries(words, s) == rest
  {
  }

  lemma {:induction false} PairsCounted(p: Word, s: set<nat>)
    ensures |Pairs(p, s)| == |s|
    decreases |s|
  {
    if x :| x in s {
      PairsCounted(p, s - {x});
      assert Pairs(p, s) == Pairs(p, s - {x}) + {(p, x)};
    } else {
      assert Pairs(p, s) == {};
    }
  }

  // ----- the trie denotes a prefix-closed set -----

  /** Node `id[p]` stands for path `p`, and its children are exactly the one-byte extensions present. */
  ghost predicate Denotes(children: seq<map<byte, nat>>, id: map<Word, nat>) {
    Named(|children|, id) && Linked(children, id)
  }

  ghost predicate Named(n: nat, id: map<Word, nat>) {
    && |id| == n && [] in id && id[[]] == 0
    && (forall p :: p in id ==> id[p] < n)
    && (forall p, q :: p in id && q in id && id[p] == id[q] ==> p == q)
    && (forall p :: p in id && p != [] ==> p[..|p| - 1] in id)
  }

  ghost predicate Linked(children: seq<map<byte, nat>>, id: map<Word, nat>) {
    forall p, b: byte :: p in id ==> id[p] < |children| && LinkedAt(children[id[p]], id, p + [b], b)
  }

  ghost predicate LinkedAt(m: map<byte, nat>, id: map<Word, nat>, v: Word, b: byte) {
    (b in m <==> v in id) && (v in id ==> b in m && m[b] == id[v])
  }

  lemma NewTrie()
    ensures Denotes([map[]], map[[] := 0])
  {
  }

  function Edge(m: map<byte, nat>, b: byte, n: nat): map<byte, nat> { m[b := n] }

  /** A new node below path `u`. */
  lemma AddNode(children: seq<map<byte, nat>>, id: map<Word, nat>, u: Word, b: byte)
    requires Denotes(children, id) && u in id && id[u] < |children| && b !in children[id[u]]
    ensures u + [b] !in id
    ensures Denotes(children[id[u] := Edge(children[id[u]], b, |children|)] + [map[]], id[u + [b] := |children|])
  {
    hide Named, Linked;
    EdgeIff(children, id, u, b);
    AddName(|children|, id, u, b);
    AddLink(children, id, u, b);
  }

  lemma EdgeIff(children: seq<map<byte, nat>>, id: map<Word, nat>, q: Word, b: byte)
    requires Denotes(children, id) && q in id && id[q] < |children|
    ensures b in children[id[q]] <==> q + [b] in id
    ensures b in children[id[q]] ==> children[id[q]][b] == id[q + [b]] < |children|
  {
    hide Named;
    InRange(children, id, q);
    assert LinkedAt(children[id[q]], id, q + [b], b);
    if q + [b] in id { InRange(children, id, q + [b]); }
  }

  lemma AddName(n: nat, id: map<Word, nat>, u: Word, b: byte)
    requires Named(n, id) && u in id && u + [b] !in id
    ensures Named(n + 1, id[u + [b] := n])
  {
    var v := u + [b];
    assert v[..|v| - 1] == u;
    assert id[v := n].Keys == id.Keys + {v};
  }

  lemma AddLink(children: seq<map<byte, nat>>, id: map<Word, nat>, u: Word, b: byte)
    requires Denotes(children, id) && u in id && id[u] < |children| && u + [b] !in id
    ensures Linked(children[id[u] := Edge(children[id[u]], b, |children|)] + [map[]], id[u + [b] := |children|])
  {
    hide Named;
    var cur, v, n := id[u], u + [b], |children|;
    var children' := children[cur := Edge(children[cur], b, n)] + [map[]];
    var id' := id[v := n];
    forall p, c: byte | p in id'
      ensures id'[p] < |children'| && LinkedAt(children'[id'[p]], id', p + [c], c)
    {
      assert (p + [c])[..|p + [c]| - 1] == p;
      if p == v {
        ParentNamed(|children|, id, v + [c]);
        assert (v + [c])[..|v|] == v;
      } else {
        InRange(children, id, p);
        InRange(children, id, u);
        assert LinkedAt(children[id[p]], id, p + [c], c);
        assert p + [c] == v ==> p == u && c == (p + [c])[|p|] == b;
      }
    }
  }

  lemma ParentNamed(n: nat, id: map<Word, nat>, p: Word)
    requires Named(n, id) && p != []
    ensures p in id ==> p[..|p| - 1] in id
  {
  }

  lemma InRange(children: seq<map<byte, nat>>, id: map<Word, nat>, p: Word)
    requires Denotes(children, id) && p in id
    ensures id[p] < |children| && forall q :: q in id && id[q] == id[p] ==> q == p
  {
    hide Linked;
  }

  // ----- building -----

  /** Every accept count is the number of the words so far that end at the node. */
  ghost predicate Accepts(accepts: map<nat, nat>, id: map<Word, nat>, words: seq<Word>, top: nat) {
    (forall i :: i in accepts ==> i < top) &&
    forall p :: p in id ==> Count(accepts, id[p]) == Occurs(words, p)
  }

  function Count(accepts: map<nat, nat>, i: nat): nat { if i in accepts then accepts[i] else 0 }

  method InsertWord(children0: seq<map<byte, nat>>, ghost id0: map<Word, nat>, w: Word)
      returns (children: seq<map<byte, nat>>, ghost id: map<Word, nat>, cur: nat)
    requires Denotes(children0, id0)
    ensures Denotes(children, id) && id.Keys == id0.Keys + PrefixesOf(w)
    ensures |children0| <= |children| && (forall p :: p in id0 ==> id[p] == id0[p])
    ensures forall p :: p in id && p !in id0 ==> id[p] >= |children0|
    ensures w in id && cur == id[w]
  {
    hide Denotes, PrefixesOf;
    children, id, cur := children0, id0, 0;
    RootIs(children, id);
    PrefixSteps(w, 0);
    for i := 0 to |w|
      invariant Denotes(children, id) && id.Keys == id0.Keys + PrefixesOf(w[..i])
      invariant |children0| <= |children| && (forall p :: p in id0 ==> id[p] == id0[p])
      invariant forall p :: p in id && p !in id0 ==> id[p] >= |children0|
      invariant w[..i] in id && cur == id[w[..i]] < |children|
    {
      var b := w[i];
      PrefixSteps(w, i);
      if b !in children[cur] {
        AddNode(children, id, w[..i], b);
        var n := |children|;
        children := children[cur := Edge(children[cur], b, n)] + [map[]];
        id := id[w[..i] + [b] := n];
      }
      EdgeIff(children, id, w[..i], b);
      assert w[..i + 1] == w[..i] + [b];
      cur := children[cur][b];
    }
    assert w[..|w|] == w;
  }

  lemma RootIs(children: seq<map<byte, nat>>, id: map<Word, nat>)
    requires Denotes(children, id)
    ensures [] in id && id[[]] == 0 && |children| > 0 && |id| == |children|
  {
  }

  lemma PrefixSteps(w: Word, i: nat)
    requires i <= |w|
    ensures PrefixesOf(w[..0]) == {[]}
    ensures i < |w| ==> w[..i + 1] == w[..i] + [w[i]] && PrefixesOf(w[..i + 1]) == PrefixesOf(w[..i]) + {w[..i + 1]}
  {
    forall p
      ensures p in PrefixesOf(w[..0]) <==> p == []
    {
      IsPrefixOf(w[..0], p);
    }
    if i < |w| {
      var a, b := w[..i], w[..i + 1];
      forall p
        ensures p in PrefixesOf(b) <==> p in PrefixesOf(a) || p == b
      {
        IsPrefixOf(a, p);
        IsPrefixOf(b, p);
        if p <= b && p != b { assert p == b[..|p|] == a[..|p|]; }
      }
    }
  }

  /** The trie of a word list, with how many words end at each node. */
  method Build(words: seq<Word>) returns (children: seq<map<byte, nat>>, accepts: map<nat, nat>, maxdepth: nat,
                                          ghost id: map<Word, nat>)
    ensures Denotes(children, id) && id.Keys == Prefixes(words)
    ensures Accepts(accepts, id, words, |children|)
    ensures DepthOk(words, maxdepth)
  {
    hide Denotes, PrefixesOf, Prefixes, Accepts, Occurs, DepthOk, Count, Edge;
    children, accepts, maxdepth, id := [map[]], map[], 0, map[[] := 0];
    NewTrie();
    NoAccepts(id, 1);
    NoWords();
    assert words[..0] == [];
    for k := 0 to |words|
      invariant Denotes(children, id) && id.Keys == Prefixes(words[..k])
      invariant Accepts(accepts, id, words[..k], |children|)
      invariant DepthOk(words[..k], maxdepth)
    {
      var w := words[k];
      assert words[..k + 1] == words[..k] + [w] && words[..k + 1][..k] == words[..k];
      ghost var top, id0 := |children|, id;
      var cur;
      children, id, cur := InsertWord(children, id, w);
      NewNodesUnseen(words[..k], id0, id);
      InRange(children, id, w);
      AcceptOne(accepts, id0, id, words[..k], w, top, |children|);
      accepts := accepts[cur := Count(accepts, cur) + 1];
      OneMoreWord(words[..k], w, maxdepth);
      if |w| > maxdepth { maxdepth := |w|; }
    }
    assert words[..|words|] == words;
  }

  /** `m` is the length of the longest word, 0 without words. */
  ghost predicate DepthOk(words: seq<Word>, m: nat) {
    (forall w :: w in words ==> |w| <= m) && (if words == [] then m == 0 else exists w :: w in words && |w| == m)
  }

  lemma OneMoreWord(words: seq<Word>, w: Word, m: nat)
    requires DepthOk(words, m)
    ensures DepthOk(words + [w], if |w| > m then |w| else m)
    ensures Prefixes(words + [w]) == Prefixes(words) + PrefixesOf(w)
  {
    assert (words + [w])[..|words|] == words;
    assert (words + [w])[|words|] == w;
    if v :| v in words && |v| == m { assert v in words + [w]; }
  }

  lemma NoWords()
    ensures Prefixes([]) == {[]} && DepthOk([], 0)
  {
  }

  lemma NoAccepts(id: map<Word, nat>, top: nat)
    ensures Accepts(map[], id, [], top)
  {
  }

  lemma NewNodesUnseen(words: seq<Word>, id0: map<Word, nat>, id: map<Word, nat>)
    requires id0.Keys == Prefixes(words)
    ensures forall p :: p in id && p !in id0 ==> Occurs(words, p) == 0
  {
    forall p | p in id && p !in id0
      ensures Occurs(words, p) == 0
    {
      PrefixesMember(words, p);
      OccursIff(words, p);
    }
  }

  lemma AcceptOne(accepts: map<nat, nat>, id0: map<Word, nat>, id: map<Word, nat>, words: seq<Word>, w: Word,
                  top0: nat, top: nat)
    requires Accepts(accepts, id0, words, top0) && top0 <= top && w in id && id[w] < top
    requires forall p :: p in id0 ==> p in id && id[p] == id0[p]
    requires forall p :: p in id && p !in id0 ==> id[p] >= top0 && Occurs(words, p) == 0
    requires forall q :: q in id && id[q] == id[w] ==> q == w
    ensures Accepts(accepts[id[w] := Count(accepts, id[w]) + 1], id, words + [w], top)
  {
    assert (words + [w])[..|words|] == words;
  }

  // ----- the walk -----

  /** The paths on the stack: unvisited, unrelated to each other, and above everything still unvisited. */
  ghost predicate Frontier(all: set<Word>, seen: set<Word>, front: seq<Word>) {
    && seen <= all
    && (forall k :: 0 <= k < |front| ==> front[k] in all)
    && Antichain(front) && NoneSeen(front, seen) && Covered(all, seen, front)
  }

  ghost predicate Above(front: seq<Word>, p: Word) { exists k :: 0 <= k < |front| && front[k] <= p }

  /** `kids` are the one-byte extensions of `q` in `all`, each once. */
  ghost predicate Kids(all: set<Word>, q: Word, kids: seq<Word>) {
    && (forall k :: 0 <= k < |kids| ==> kids[k] in all && |kids[k]| == |q| + 1 && q <= kids[k])
    && (forall p :: p in all && |p| == |q| + 1 && q <= p ==> p in kids)
    && (forall j, k :: 0 <= j < k < |kids| ==> kids[j] != kids[k])
  }

  ghost predicate PrefixClosed(all: set<Word>) { forall p, n :: p in all && 0 <= n <= |p| ==> p[..n] in all }

  ghost predicate Apart(front: seq<Word>, q: Word) {
    forall j :: 0 <= j < |front| ==> !(front[j] <= q) && !(q <= front[j])
  }

  ghost predicate Antichain(f: seq<Word>) {
    forall j, k :: 0 <= j < |f| && 0 <= k < |f| && j != k ==> !(f[j] <= f[k])
  }

  ghost predicate NoneSeen(front: seq<Word>, seen: set<Word>) {
    forall k, p :: 0 <= k < |front| && p in seen ==> !(front[k] <= p)
  }

  ghost predicate Covered(all: set<Word>, seen: set<Word>, front: seq<Word>) {
    forall p :: p in all ==> p in seen || Above(front, p)
  }

  /** Visiting the top of the stack and pushing its children keeps the frontier. */
  lemma PopPush(all: set<Word>, seen: set<Word>, rest: seq<Word>, q: Word, kids: seq<Word>)
    requires PrefixClosed(all) && Frontier(all, seen, rest + [q]) && Kids(all, q, kids)
    ensures q !in seen && Frontier(all, seen + {q}, rest + kids)
  {
    hide Antichain, NoneSeen, Covered, PrefixClosed;
    assert (rest + [q])[|rest|] == q;
    Popped(rest, q);
    NewAntichain(rest, q, kids);
    KidsUnseen(seen, rest, q, kids);
    StillCovered(all, seen, rest, q, kids);
    AllIn(all, rest, q);
  }

  lemma AllIn(all: set<Word>, rest: seq<Word>, q: Word)
    requires forall k :: 0 <= k < |rest + [q]| ==> (rest + [q])[k] in all
    ensures q in all && forall k :: 0 <= k < |rest| ==> rest[k] in all
  {
    assert (rest + [q])[|rest|] == q;
    forall k | 0 <= k < |rest|
      ensures rest[k] in all
    {
      assert (rest + [q])[k] == rest[k];
    }
  }

  lemma Popped(rest: seq<Word>, q: Word)
    requires Antichain(rest + [q])
    ensures Antichain(rest) && Apart(rest, q)
  {
    var front := rest + [q];
    assert front[|rest|] == q;
    assert forall j :: 0 <= j < |rest| ==> front[j] == rest[j];
  }

  lemma KidsUnseen(seen: set<Word>, rest: seq<Word>, q: Word, kids: seq<Word>)
    requires NoneSeen(rest + [q], seen) && Apart(rest, q)
    requires forall k :: 0 <= k < |kids| ==> |kids[k]| == |q| + 1 && q <= kids[k]
    ensures q !in seen && NoneSeen(rest + kids, seen + {q})
  {
    var front, front' := rest + [q], rest + kids;
    assert front[|rest|] == q;
    forall k, p | 0 <= k < |front'| && p in seen + {q}
      ensures !(front'[k] <= p)
    {
      if k < |rest| {
        assert front[k] == rest[k];
      } else if p != q && front'[k] <= p {
        PrefixChain(q, kids[k - |rest|], p);
      }
    }
  }

  lemma LongerPrefix(q: Word, p: Word)
    requires q <= p
    ensures p == q || |p| > |q|
  {
  }

  lemma StillCovered(all: set<Word>, seen: set<Word>, rest: seq<Word>, q: Word, kids: seq<Word>)
    requires PrefixClosed(all) && Covered(all, seen, rest + [q])
    requires forall p :: p in all && |p| == |q| + 1 && q <= p ==> p in kids
    ensures Covered(all, seen + {q}, rest + kids)
  {
    var front, front' := rest + [q], rest + kids;
    forall p | p in all && p !in seen + {q}
      ensures Above(front', p)
    {
      var k :| 0 <= k < |front| && front[k] <= p;
      if k < |rest| {
        assert front'[k] == rest[k];
      } else {
        assert p != q && front[k] == q;
        LongerPrefix(q, p);
        var c := p[..|q| + 1];
        var i :| 0 <= i < |kids| && kids[i] == c;
        assert front'[|rest| + i] == c;
      }
    }
  }

  lemma PrefixChain(a: Word, b: Word, c: Word)
    requires a <= b && b <= c
    ensures a <= c
  {
  }

  lemma NewAntichain(rest: seq<Word>, q: Word, kids: seq<Word>)
    requires Apart(rest, q) && Antichain(rest)
    requires forall k :: 0 <= k < |kids| ==> |kids[k]| == |q| + 1 && q <= kids[k]
    requires forall j, k :: 0 <= j < k < |kids| ==> kids[j] != kids[k]
    ensures Antichain(rest + kids)
  {
    var f := rest + kids;
    forall j, k | 0 <= j < |f| && 0 <= k < |f| && j != k
      ensures !(f[j] <= f[k])
    {
      if j < |rest| && k >= |rest| {
        BelowChild(rest[j], q, kids[k - |rest|]);
      } else if j >= |rest| && k < |rest| {
        var c, r := kids[j - |rest|], rest[k];
        assert c <= r ==> q <= r by { if c <= r { PrefixChain(q, c, r); } }
      } else if j >= |rest| {
        Siblings(kids[j - |rest|], kids[k - |rest|]);
        assert j < k ==> kids[j - |rest|] != kids[k - |rest|];
        assert k < j ==> kids[k - |rest|] != kids[j - |rest|];
      }
    }
  }

  lemma BelowChild(r: Word, q: Word, c: Word)
    requires |c| == |q| + 1 && q <= c
    ensures r <= c ==> r <= q || q <= r
  {
    if r <= c {
      if |r| <= |q| { assert r == c[..|r|] == q[..|r|]; } else { assert r == c; }
    }
  }

  lemma Siblings(a: Word, b: Word)
    requires |a| == |b|
    ensures a <= b ==> a == b
  {
  }

  /** Node, and how many words end strictly above it. */
  datatype Entry = Entry(node: nat, pending: nat)

  /** The stack entries stand for the frontier's paths. */
  ghost predicate Stands(words: seq<Word>, id: map<Word, nat>, stack: seq<Entry>, front: seq<Word>) {
    |stack| == |front| && forall k :: 0 <= k < |front| ==> EntryFor(words, id, stack[k], front[k])
  }

  ghost predicate EntryFor(words: seq<Word>, id: map<Word, nat>, e: Entry, p: Word) {
    p in id && e.node == id[p] && e.pending + Occurs(words, p) == PrefixCount(words, p)
  }

  /** The order in which a node's children are pushed is left open: nothing below depends on it. */
  method PushChildren(m: map<byte, nat>, here: nat, stack0: seq<Entry>)
      returns (stack: seq<Entry>, ghost order: seq<byte>)
    ensures Lists(m, order) && stack == stack0 + Pushed(m, here, order)
  {
    stack, order := stack0, [];
    var rest := m.Keys;
    while rest != {}
      invariant rest <= m.Keys && forall b :: b in order <==> b in m && b !in rest
      invariant forall j, k :: 0 <= j < k < |order| ==> order[j] != order[k]
      invariant stack == stack0 + Pushed(m, here, order)
      decreases rest
    {
      var b :| b in rest;
      ghost var before := order;
      stack, order, rest := stack + [Entry(m[b], here)], order + [b], rest - {b};
      assert Pushed(m, here, order) == Pushed(m, here, before) + [Entry(m[b], here)];
    }
  }

  ghost predicate Lists(m: map<byte, nat>, order: seq<byte>) {
    (forall b :: b in order <==> b in m) && forall j, k :: 0 <= j < k < |order| ==> order[j] != order[k]
  }

  ghost function Pushed(m: map<byte, nat>, here: nat, order: seq<byte>): seq<Entry>
    requires forall b :: b in order ==> b in m
  {
    seq(|order|, k requires 0 <= k < |order| => Entry(m[order[k]], here))
  }

  ghost function Extensions(q: Word, order: seq<byte>): seq<Word> {
    seq(|order|, k requires 0 <= k < |order| => q + [order[k]])
  }

  lemma DenotedClosed(children: seq<map<byte, nat>>, id: map<Word, nat>)
    requires Denotes(children, id)
    ensures PrefixClosed(id.Keys)
  {
    forall p, n: nat | p in id && n <= |p|
      ensures p[..n] in id
    {
      PrefixIn(children, id, p, n);
    }
  }

  lemma {:induction false} PrefixIn(children: seq<map<byte, nat>>, id: map<Word, nat>, p: Word, n: nat)
    requires Denotes(children, id) && p in id && n <= |p|
    ensures p[..n] in id
    decreases |p|
  {
    if n < |p| {
      PrefixIn(children, id, p[..|p| - 1], n);
      assert p[..|p| - 1][..n] == p[..n];
    } else {
      assert p[..n] == p;
    }
  }

  lemma KidsOf(children: seq<map<byte, nat>>, id: map<Word, nat>, q: Word, order: seq<byte>)
    requires Denotes(children, id) && q in id && id[q] < |children| && Lists(children[id[q]], order)
    ensures Kids(id.Keys, q, Extensions(q, order))
  {
    hide Denotes;
    var kids := Extensions(q, order);
    forall b
      ensures b in order <==> q + [b] in id
    {
      EdgeIff(children, id, q, b);
    }
    forall p | p in id && |p| == |q| + 1 && q <= p
      ensures p in kids
    {
      assert p == q + [p[|q|]];
      var k :| 0 <= k < |order| && order[k] == p[|q|];
      assert kids[k] == p;
    }
    forall j, k | 0 <= j < k < |kids|
      ensures kids[j] != kids[k]
    {
      assert kids[j][|q|] == order[j] && kids[k][|q|] == order[k];
    }
  }

  lemma StandsAfter(words: seq<Word>, children: seq<map<byte, nat>>, id: map<Word, nat>, stack: seq<Entry>,
                    front: seq<Word>, q: Word, e: Entry, order: seq<byte>, here: nat)
    requires Denotes(children, id) && Stands(words, id, stack + [e], front + [q])
    requires q in id && id[q] < |children| && Lists(children[id[q]], order) && here == PrefixCount(words, q)
    ensures Stands(words, id, stack + Pushed(children[id[q]], here, order), front + Extensions(q, order))
  {
    var pushed, kids := Pushed(children[id[q]], here, order), Extensions(q, order);
    forall k | 0 <= k < |front + kids|
      ensures EntryFor(words, id, (stack + pushed)[k], (front + kids)[k])
    {
      if k < |front| {
        assert (stack + [e])[k] == stack[k] && (front + [q])[k] == front[k];
      } else {
        var b := order[k - |front|];
        assert b in order;
        CountExtend(words, q, b);
      }
    }
  }

  /** The bytes that extend path `p` in `all`. */
  function NextBytes(all: set<Word>, p: Word): set<byte> { set b: byte | p + [b] in all }

  /** `m` is the most children any path in `s` has. */
  ghost predicate WidestIn(all: set<Word>, s: set<Word>, m: nat) {
    (forall p :: p in s ==> |NextBytes(all, p)| <= m) && (m == 0 || exists p :: p in s && |NextBytes(all, p)| == m)
  }

  /** `m` is the largest prefix count in `s`, 0 if there is none. */
  ghost predicate DeepestIn(words: seq<Word>, s: set<Word>, m: nat) {
    (forall p :: p in s ==> PrefixCount(words, p) <= m) && (m == 0 || exists p :: p in s && PrefixCount(words, p) == m)
  }

  function Larger(a: nat, b: nat): nat { if a > b then a else b }

  lemma FanOf(children: seq<map<byte, nat>>, id: map<Word, nat>, q: Word)
    requires Denotes(children, id) && q in id && id[q] < |children|
    ensures |children[id[q]]| == |NextBytes(id.Keys, q)|
  {
    assert children[id[q]].Keys == NextBytes(id.Keys, q);
  }

  lemma WidestAfter(all: set<Word>, s: set<Word>, m: nat, q: Word)
    requires WidestIn(all, s, m)
    ensures WidestIn(all, s + {q}, Larger(m, |NextBytes(all, q)|))
  {
    if p :| p in s && |NextBytes(all, p)| == m { assert p in s + {q}; }
    assert q in s + {q};
  }

  lemma DeepestAfter(words: seq<Word>, s: set<Word>, m: nat, q: Word)
    requires DeepestIn(words, s, m)
    ensures DeepestIn(words, s + {q}, Larger(m, PrefixCount(words, q)))
  {
    if p :| p in s && PrefixCount(words, p) == m { assert p in s + {q}; }
    assert q in s + {q};
  }

  /** What one visit does to the two totals. */
  lemma TotalsAfter(words: seq<Word>, s: set<Word>, q: Word)
    requires q !in s
    ensures SumCounts(words, s + {q}) == SumCounts(words, s) + if Occurs(words, q) > 0 then PrefixCount(words, q) else 0
    ensures |Members(words, s + {q})| == |Members(words, s)| + if Occurs(words, q) > 0 then 1 else 0
    ensures Occurs(words, q) <= PrefixCount(words, q)
  {
    SumAdd(words, s, q);
    OccursIff(words, q);
    OccursBelow(words, q);
    assert Members(words, s + {q}) == Members(words, s) + if q in words then {q} else {};
  }

  lemma {:induction false} OccursBelow(words: seq<Word>, p: Word)
    ensures Occurs(words, p) <= PrefixCount(words, p)
    decreases |words|
  {
    if words != [] { OccursBelow(words[..|words| - 1], p); }
  }

  lemma VisitedAll(all: set<Word>, seen: set<Word>)
    requires Frontier(all, seen, [])
    ensures seen == all
  {
  }

  lemma RootCovers(all: set<Word>)
    ensures Covered(all, {}, [[]])
  {
    forall p | p in all
      ensures Above([[]], p)
    {
      assert [[]][0] <= p;
    }
  }

  lemma Started(words: seq<Word>, children: seq<map<byte, nat>>, id: map<Word, nat>)
    requires Denotes(children, id)
    ensures PrefixClosed(id.Keys) && Frontier(id.Keys, {}, [[]]) && Stands(words, id, [Entry(0, 0)], [[]])
    ensures SumCounts(words, {}) == 0 && |Members(words, {})| == 0
    ensures WidestIn(id.Keys, {}, 0) && DeepestIn(words, {}, 0)
  {
    hide Denotes, PrefixClosed, PrefixCount, Occurs;
    DenotedClosed(children, id);
    RootIs(children, id);
    CountEmpty(words);
    RootCovers(id.Keys);
  }

  lemma TopOf(words: seq<Word>, children: seq<map<byte, nat>>, id: map<Word, nat>, accepts: map<nat, nat>,
              stack: seq<Entry>, front: seq<Word>)
    requires Denotes(children, id) && Accepts(accepts, id, words, |children|) && Stands(words, id, stack, front)
    requires stack != []
    ensures |front| == |stack|
    ensures var e, q := stack[|stack| - 1], front[|front| - 1];
            q in id && id[q] == e.node < |children| && Count(accepts, e.node) == Occurs(words, q) &&
            e.pending + Occurs(words, q) == PrefixCount(words, q)
  {
    hide Denotes, Count, Occurs, PrefixCount;
    assert EntryFor(words, id, stack[|stack| - 1], front[|front| - 1]);
    InRange(children, id, front[|front| - 1]);
  }

  /** The walk over a built trie: every path is visited once, and `pending` is what its proper prefixes accept. */
  method Walk(children: seq<map<byte, nat>>, accepts: map<nat, nat>, ghost id: map<Word, nat>, ghost words: seq<Word>)
      returns (maxfan: nat, maskdepth: nat, pushes: nat, trysites: nat)
    requires Denotes(children, id) && Accepts(accepts, id, words, |children|)
    ensures WidestIn(id.Keys, id.Keys, maxfan) && DeepestIn(words, id.Keys, maskdepth)
    ensures trysites == SumCounts(words, id.Keys) && pushes + |Members(words, id.Keys)| == trysites
  {
    hide Denotes, Accepts, Stands, Frontier, PrefixClosed, SumCounts, Members, WidestIn, DeepestIn, Count, PrefixCount,
         Occurs, NextBytes, Pushed, Extensions, Lists, Kids;
    maxfan, maskdepth, pushes, trysites := 0, 0, 0, 0;
    ghost var all, seen, front := id.Keys, {}, [[]];
    Started(words, children, id);
    var stack := [Entry(0, 0)];
    while stack != []
      invariant seen <= all && Frontier(all, seen, front) && Stands(words, id, stack, front)
      invariant WidestIn(all, seen, maxfan) && DeepestIn(words, seen, maskdepth)
      invariant trysites == SumCounts(words, seen) && pushes + |Members(words, seen)| == trysites
      decreases |all - seen|
    {
      TopOf(words, children, id, accepts, stack, front);
      var e := stack[|stack| - 1];
      ghost var q, above := front[|front| - 1], front[..|front| - 1];
      assert front == above + [q] && stack == stack[..|stack| - 1] + [e];
      stack := stack[..|stack| - 1];
      FanOf(children, id, q);
      WidestAfter(all, seen, maxfan, q);
      maxfan := Larger(maxfan, |children[e.node]|);
      var here := e.pending + Count(accepts, e.node);
      DeepestAfter(words, seen, maskdepth, q);
      maskdepth := Larger(maskdepth, here);
      var below := stack;
      ghost var order;
      stack, order := PushChildren(children[e.node], here, below);
      KidsOf(children, id, q, order);
      PopPush(all, seen, above, q, Extensions(q, order));
      StandsAfter(words, children, id, below, above, q, e, order, here);
      TotalsAfter(words, seen, q);
      if Count(accepts, e.node) > 0 {
        trysites, pushes := trysites + here, pushes + (here - 1);
      }
      OneLess(all, seen, q);
      seen, front := seen + {q}, above + Extensions(q, order);
    }
    FrontEmpty(words, id, front);
    VisitedAll(all, seen);
  }

  lemma OneLess(all: set<Word>, seen: set<Word>, q: Word)
    requires q in all && q !in seen
    ensures |all - (seen + {q})| < |all - seen|
  {
    assert all - seen == (all - (seen + {q})) + {q};
  }

  lemma FrontEmpty(words: seq<Word>, id: map<Word, nat>, front: seq<Word>)
    requires Stands(words, id, [], front)
    ensures front == []
  {
  }

  // ----- the whole census of a word list -----

  datatype Stats = Stats(nodes: nat, depth: nat, fanout: nat, maskDepth: nat, trySites: nat, pushes: nat)

  function Distinct(words: seq<Word>): set<Word> { set w | w in words }

  /** Only the words themselves contribute to the sum. */
  lemma {:induction false} SumOverMembers(words: seq<Word>, s: set<Word>)
    ensures SumCounts(words, s) == SumCounts(words, Members(words, s))
    decreases |s|
  {
    if s == {} {
      assert Members(words, s) == s;
    } else {
      var x :| x in s;
      var t := s - {x};
      assert s == t + {x};
      SumAdd(words, t, x);
      SumOverMembers(words, t);
      if x in words {
        SumAdd(words, Members(words, t), x);
        assert Members(words, s) == Members(words, t) + {x};
      } else {
        assert Members(words, s) == Members(words, t);
      }
    }
  }

  lemma WordsArePrefixes(words: seq<Word>)
    ensures Members(words, Prefixes(words)) == Distinct(words) <= Prefixes(words)
  {
    forall w | w in words
      ensures w in Prefixes(words)
    {
      PrefixesMember(words, w);
    }
  }

  /** The deepest count over all paths is reached at a word. */
  lemma DeepestAtWord(words: seq<Word>, m: nat)
    requires DeepestIn(words, Prefixes(words), m)
    ensures DeepestIn(words, Distinct(words), m)
  {
    WordsArePrefixes(words);
    if m > 0 {
      var p :| p in Prefixes(words) && PrefixCount(words, p) == m;
      PrefixesMember(words, p);
      if p == [] { assert [] <= words[0] && words[0] in words; }
      var w :| w in words && p <= w;
      CountMonotone(words, p, w);
      assert w in Distinct(words);
    }
  }

  /** The trie's figures, read off the plain word list. */
  method TrieStats(words: seq<Word>) returns (r: Stats)
    ensures r.nodes == 1 + |Prefixes(words) - {[]}|
    ensures DepthOk(words, r.depth)
    ensures WidestIn(Prefixes(words), Prefixes(words), r.fanout)
    ensures DeepestIn(words, Distinct(words), r.maskDepth)
    ensures r.trySites == SumCounts(words, Distinct(words))
    ensures r.pushes == r.trySites - |Distinct(words)|
  {
    hide Prefixes, Accepts, DepthOk, WidestIn, DeepestIn, SumCounts, Members, Distinct;
    var children, accepts, maxdepth;
    ghost var id;
    children, accepts, maxdepth, id := Build(words);
    var maxfan, maskdepth, pushes, trysites := Walk(children, accepts, id, words);
    RootIs(children, id);
    assert |id.Keys| == |id|;
    assert id.Keys == (id.Keys - {[]}) + {[]};
    SumOverMembers(words, Prefixes(words));
    WordsArePrefixes(words);
    DeepestAtWord(words, maskdepth);
    r := Stats(|children|, maxdepth, maxfan, maskdepth, trysites, pushes);
  }
}
