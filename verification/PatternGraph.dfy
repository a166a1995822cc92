/** The node graph of `src/Pattern.cpp`. Nodes live in one sequence and refer to each other by index. */
module PatternGraph {
  import opened PatternLanguage

  datatype Kind =
    | CharNode(chr: char)
    | CharRange(cmin: char, cmax: char)
    | MultiRange(bounds: seq<Bounds>)
    | MultiChar(chars: string)
    | AnyNode
    | EndNode

  datatype Node = Node(kind: Kind, inverted: bool, next: seq<nat>)

  type Graph = seq<Node>

  /** A range node is only made for a real range, and a multi-range node for several bounds. */
  predicate WellMade(n: Node) {
    (n.kind.CharRange? ==> n.kind.cmin != n.kind.cmax) && (n.kind.MultiRange? ==> |n.kind.bounds| > 1)
  }

  function AtomOf(n: Node): Atom
    requires n.kind != EndNode
  {
    match n.kind
    case CharNode(c) => OneOf([Bounds(c, c)], n.inverted)
    case CharRange(lo, hi) => OneOf([Bounds(lo, hi)], n.inverted)
    case MultiRange(bs) => OneOf(bs, n.inverted)
    case MultiChar(cs) => OneOf(Singletons(cs), n.inverted)
    case AnyNode => Any
  }

  /** The word one node adds to a path. */
  function Label(n: Node): Word {
    if n.kind == EndNode then [] else [AtomOf(n)]
  }

  // Paths and the words they spell.

  ghost predicate Edge(g: Graph, a: nat, b: nat) {
    a < |g| && b in g[a].next
  }

  ghost predicate EdgeAt(g: Graph, p: seq<nat>, i: nat)
    requires i + 1 < |p|
  {
    Edge(g, p[i], p[i + 1])
  }

  /** p leads from a to b inside the node set s. */
  ghost predicate Path(g: Graph, s: set<nat>, a: nat, b: nat, p: seq<nat>) {
    && p != [] && p[0] == a && p[|p| - 1] == b
    && (forall i :: 0 <= i < |p| ==> p[i] in s && p[i] < |g|)
    && (forall i :: 0 <= i < |p| - 1 ==> EdgeAt(g, p, i))
  }

  function PathWord(g: Graph, p: seq<nat>): Word
    requires forall i :: 0 <= i < |p| ==> p[i] < |g|
  {
    if p == [] then [] else Label(g[p[0]]) + PathWord(g, p[1..])
  }

  ghost predicate Spells(g: Graph, s: set<nat>, a: nat, b: nat, w: Word) {
    exists p :: Path(g, s, a, b, p) && PathWord(g, p) == w
  }

  lemma {:induction false} PathWordJoin(g: Graph, p: seq<nat>, q: seq<nat>)
    requires forall i :: 0 <= i < |p| ==> p[i] < |g|
    requires forall i :: 0 <= i < |q| ==> q[i] < |g|
    ensures PathWord(g, p + q) == PathWord(g, p) + PathWord(g, q)
  {
    if p == [] {
      assert p + q == q;
    } else {
      hide PathWord, Label;
      var pq, rest := p + q, p[1..];
      assert pq[1..] == rest + q && pq[0] == p[0];
      assert forall i :: 0 <= i < |pq| ==> pq[i] < |g|;
      PathWordJoin(g, rest, q);
      PathWordFirst(g, p);
      PathWordFirst(g, pq);
      Regroup(Label(g[p[0]]), PathWord(g, rest), PathWord(g, q));
    }
  }

  lemma PathWordFirst(g: Graph, p: seq<nat>)
    requires p != [] && forall i :: 0 <= i < |p| ==> p[i] < |g|
    ensures PathWord(g, p) == Label(g[p[0]]) + PathWord(g, p[1..])
  {
  }

  lemma LoneWord(g: Graph, n: nat)
    requires n < |g|
    ensures PathWord(g, [n]) == Label(g[n])
  {
    PathWordFirst(g, [n]);
    assert [n][1..] == [] && PathWord(g, []) == [];
  }

  lemma Regroup(u: Word, v: Word, w: Word)
    ensures (u + v) + w == u + (v + w)
  {
  }

  lemma {:induction false} PathWordSameLabels(g: Graph, g': Graph, p: seq<nat>)
    requires forall i :: 0 <= i < |p| ==> p[i] < |g| && p[i] < |g'| && Label(g[p[i]]) == Label(g'[p[i]])
    ensures PathWord(g, p) == PathWord(g', p)
  {
    if p != [] {
      PathWordSameLabels(g, g', p[1..]);
    }
  }

  lemma PathJoin(g: Graph, s: set<nat>, a: nat, b: nat, c: nat, d: nat, p: seq<nat>, q: seq<nat>)
    requires Path(g, s, a, b, p) && Path(g, s, c, d, q) && Edge(g, b, c)
    ensures Path(g, s, a, d, p + q) && PathWord(g, p + q) == PathWord(g, p) + PathWord(g, q)
  {
    hide PathWord, Edge;
    PathWordJoin(g, p, q);
    var pq := p + q;
    forall i | 0 <= i < |pq| - 1
      ensures EdgeAt(g, pq, i)
    {
      if i < |p| - 1 {
        assert EdgeAt(g, p, i) && pq[i] == p[i] && pq[i + 1] == p[i + 1];
      } else if i == |p| - 1 {
        assert pq[i] == b && pq[i + 1] == c;
      } else {
        assert EdgeAt(g, q, i - |p|) && pq[i] == q[i - |p|] && pq[i + 1] == q[i - |p| + 1];
      }
    }
  }

  lemma PathSplit(g: Graph, s: set<nat>, a: nat, b: nat, p: seq<nat>, k: nat)
    requires Path(g, s, a, b, p) && 0 < k < |p|
    ensures Path(g, s, a, p[k - 1], p[..k]) && Path(g, s, p[k], b, p[k..]) && Edge(g, p[k - 1], p[k])
    ensures PathWord(g, p) == PathWord(g, p[..k]) + PathWord(g, p[k..])
  {
    hide PathWord, Edge;
    PathWordJoin(g, p[..k], p[k..]);
    assert p == p[..k] + p[k..];
    assert EdgeAt(g, p, k - 1);
    forall i | 0 <= i < |p[..k]| - 1
      ensures EdgeAt(g, p[..k], i)
    {
      assert EdgeAt(g, p, i);
    }
    forall i | 0 <= i < |p[k..]| - 1
      ensures EdgeAt(g, p[k..], i)
    {
      assert EdgeAt(g, p, k + i);
      assert p[k..][i] == p[k + i] && p[k..][i + 1] == p[k + i + 1];
    }
  }

  // Fragments.

  /** Edges of s stay in s. */
  ghost predicate Closed(g: Graph, s: set<nat>) {
    forall n :: n in s ==> n < |g| && forall c :: c in g[n].next ==> c in s
  }

  /** On s, g' is g with an edge to target added, behind the others, at every source. */
  ghost predicate Linked(g: Graph, g': Graph, s: set<nat>, sources: set<nat>, target: nat) {
    forall n :: n in s ==> LinkedAt(g, g', n, sources, target)
  }

  ghost predicate LinkedAt(g: Graph, g': Graph, n: nat, sources: set<nat>, target: nat) {
    && n < |g| && n < |g'| && g[n].kind == g'[n].kind && g[n].inverted == g'[n].inverted
    && g[n].next <= g'[n].next
    && (forall c :: c in g'[n].next <==> c in g[n].next || (n in sources && c == target))
  }

  lemma PathKept(g: Graph, g': Graph, s: set<nat>, s': set<nat>, sources: set<nat>, target: nat, a: nat, b: nat,
                 p: seq<nat>)
    requires Linked(g, g', s, sources, target) && s <= s'
    requires Path(g, s, a, b, p)
    ensures Path(g', s', a, b, p) && PathWord(g', p) == PathWord(g, p)
  {
    assert forall i :: 0 <= i < |p| ==> LinkedAt(g, g', p[i], sources, target);
    forall i | 0 <= i < |p| - 1
      ensures EdgeAt(g', p, i)
    {
      assert EdgeAt(g, p, i);
    }
    PathWordSameLabels(g, g', p);
  }

  /** A path of g' inside s that never uses the added edge is a path of g. */
  lemma PathOld(g: Graph, g': Graph, s: set<nat>, sources: set<nat>, target: nat, a: nat, b: nat, p: seq<nat>)
    requires Linked(g, g', s, sources, target)
    requires Path(g', s, a, b, p)
    requires forall i :: 0 <= i < |p| - 1 ==> !(p[i] in sources && p[i + 1] == target)
    ensures Path(g, s, a, b, p) && PathWord(g', p) == PathWord(g, p)
  {
    assert forall i :: 0 <= i < |p| ==> LinkedAt(g, g', p[i], sources, target);
    forall i | 0 <= i < |p| - 1
      ensures EdgeAt(g, p, i)
    {
      assert EdgeAt(g', p, i);
    }
    PathWordSameLabels(g, g', p);
  }

  // Two fragments in a row.

  lemma {:induction false} StaysInside(g: Graph, s: set<nat>, f: set<nat>, a: nat, b: nat, p: seq<nat>)
    requires Path(g, s, a, b, p) && a in f && Closed(g, f)
    ensures Path(g, f, a, b, p)
    decreases |p|
  {
    if |p| > 1 {
      PathSplit(g, s, a, b, p, 1);
      StaysInside(g, s, f, p[1], b, p[1..]);
      assert forall i :: 1 <= i < |p| ==> p[i] == p[1..][i - 1];
    }
  }

  /** The first node of p that lies in f. */
  function {:induction false} FirstIn(p: seq<nat>, f: set<nat>): (k: nat)
    requires p != [] && p[|p| - 1] in f
    ensures k < |p| && p[k] in f
    ensures forall i :: 0 <= i < k ==> p[i] !in f
  {
    if p[0] in f then 0 else 1 + FirstIn(p[1..], f)
  }

  /** A path that ends in the first fragment never left it. */
  lemma NeverLeft(g: Graph, g': Graph, s: set<nat>, f: set<nat>, sources: set<nat>, nh: nat, h: nat, b: nat,
                  p: seq<nat>)
    requires s !! f && Closed(g, s) && Closed(g', f)
    requires Linked(g, g', s, sources, nh) && nh in f
    requires h in s && b in s && Path(g', s + f, h, b, p)
    ensures Path(g, s, h, b, p) && PathWord(g', p) == PathWord(g, p)
  {
    forall i | 0 <= i < |p|
      ensures p[i] in s
    {
      if p[i] in f && i > 0 {
        PathSplit(g', s + f, h, b, p, i);
        StaysInside(g', s + f, f, p[i], b, p[i..]);
        assert false;
      }
    }
    forall i | 0 <= i < |p| - 1
      ensures !(p[i] in sources && p[i + 1] == nh)
    {
      assert p[i + 1] in s;
    }
    PathOld(g, g', s, sources, nh, h, b, p);
  }

  lemma OldWords(g: Graph, g': Graph, s: set<nat>, f: set<nat>, sources: set<nat>, nh: nat, h: nat, b: nat, w: Word)
    requires s !! f && Closed(g, s) && Closed(g', f)
    requires Linked(g, g', s, sources, nh) && nh in f
    requires h in s && b in s
    ensures Spells(g', s + f, h, b, w) <==> Spells(g, s, h, b, w)
  {
    if Spells(g', s + f, h, b, w) {
      var p :| Path(g', s + f, h, b, p) && PathWord(g', p) == w;
      NeverLeft(g, g', s, f, sources, nh, h, b, p);
    }
    if Spells(g, s, h, b, w) {
      var p :| Path(g, s, h, b, p) && PathWord(g, p) == w;
      PathKept(g, g', s, s + f, sources, nh, h, b, p);
    }
  }

  /** Words from h through one of the sources and then through the second fragment. */
  ghost predicate Chained(g: Graph, g': Graph, s: set<nat>, f: set<nat>, sources: set<nat>, h: nat, nh: nat, b: nat,
                          w: Word) {
    exists u: Word, v: Word, x: nat :: Joined(w, u, v) && x in sources && Spells(g, s, h, x, u) &&
        Spells(g', f, nh, b, v)
  }

  lemma ChainSplit(g: Graph, g': Graph, s: set<nat>, f: set<nat>, sources: set<nat>, h: nat, nh: nat, b: nat,
                   p: seq<nat>)
    requires s !! f && Closed(g, s) && Closed(g', f)
    requires Linked(g, g', s, sources, nh) && nh in f
    requires h in s && b in f && Path(g', s + f, h, b, p)
    ensures Chained(g, g', s, f, sources, h, nh, b, PathWord(g', p))
  {
    hide PathWord, FirstIn;
    var k := FirstIn(p, f);
    PathSplit(g', s + f, h, b, p, k);
    var x, u, v := p[k - 1], p[..k], p[k..];
    assert u[k - 1] == x && x in s;
    assert LinkedAt(g, g', x, sources, nh);
    assert x in sources && p[k] == nh;
    hide Path, Linked, Closed;
    NeverLeft(g, g', s, f, sources, nh, h, x, u);
    StaysInside(g', s + f, f, nh, b, v);
    assert Joined(PathWord(g', p), PathWord(g', u), PathWord(g', v));
  }

  /** Linking two fragments concatenates their words. */
  lemma ChainWords(g: Graph, g': Graph, s: set<nat>, f: set<nat>, sources: set<nat>, h: nat, nh: nat, b: nat, w: Word)
    requires s !! f && Closed(g, s) && Closed(g', f)
    requires Linked(g, g', s, sources, nh) && nh in f && sources <= s
    requires h in s && b in f
    ensures Spells(g', s + f, h, b, w) <==> Chained(g, g', s, f, sources, h, nh, b, w)
  {
    if Spells(g', s + f, h, b, w) {
      var p :| Path(g', s + f, h, b, p) && PathWord(g', p) == w;
      ChainSplit(g, g', s, f, sources, h, nh, b, p);
    }
    if Chained(g, g', s, f, sources, h, nh, b, w) {
      var u: Word, v: Word, x: nat :| Joined(w, u, v) && x in sources && Spells(g, s, h, x, u) &&
          Spells(g', f, nh, b, v);
      var p :| Path(g, s, h, x, p) && PathWord(g, p) == u;
      var q :| Path(g', f, nh, b, q) && PathWord(g', q) == v;
      PathKept(g, g', s, s + f, sources, nh, h, x, p);
      assert Path(g', s + f, nh, b, q);
      assert LinkedAt(g, g', x, sources, nh);
      PathJoin(g', s + f, h, x, nh, b, p, q);
    }
  }

  // A fragment with an edge from its tail back to its head.

  ghost predicate SpellsTimes(g: Graph, s: set<nat>, h: nat, t: nat, w: Word, n: nat)
    decreases n
  {
    if n == 0 then w == []
    else exists x: Word, y: Word :: Joined(w, x, y) && Spells(g, s, h, t, x) && SpellsTimes(g, s, h, t, y, n - 1)
  }

  ghost predicate SpellsRepeatedly(g: Graph, s: set<nat>, h: nat, t: nat, w: Word) {
    exists n: nat :: n >= 1 && SpellsTimes(g, s, h, t, w, n)
  }

  /** The first place where p steps from t to h. */
  function FirstUse(p: seq<nat>, t: nat, h: nat): (k: nat)
    requires p != []
    ensures k < |p|
    ensures k < |p| - 1 ==> p[k] == t && p[k + 1] == h
    ensures forall j :: 0 <= j < k ==> !(p[j] == t && p[j + 1] == h)
  {
    if |p| == 1 || (p[0] == t && p[1] == h) then 0 else 1 + FirstUse(p[1..], t, h)
  }

  lemma {:induction false} LoopSplit(g: Graph, g': Graph, s: set<nat>, h: nat, t: nat, p: seq<nat>) returns (n: nat)
    requires Linked(g, g', s, {t}, h)
    requires Path(g', s, h, t, p)
    ensures n >= 1 && SpellsTimes(g, s, h, t, PathWord(g', p), n)
    decreases |p|
  {
    hide PathWord, Linked, FirstUse;
    var i := FirstUse(p, t, h);
    if i < |p| - 1 {
      PathSplit(g', s, h, t, p, i + 1);
      PathOld(g, g', s, {t}, h, h, t, p[..i + 1]);
      n := LoopSplit(g, g', s, h, t, p[i + 1..]);
      assert Joined(PathWord(g', p), PathWord(g', p[..i + 1]), PathWord(g', p[i + 1..]));
      n := n + 1;
    } else {
      PathOld(g, g', s, {t}, h, h, t, p);
      assert Joined(PathWord(g', p), PathWord(g', p), []) && SpellsTimes(g, s, h, t, [], 0);
      n := 1;
    }
  }

  lemma {:induction false} LoopJoin(g: Graph, g': Graph, s: set<nat>, h: nat, t: nat, w: Word, n: nat)
    requires Linked(g, g', s, {t}, h) && t in s
    requires n >= 1 && SpellsTimes(g, s, h, t, w, n)
    ensures Spells(g', s, h, t, w)
    decreases n
  {
    var x: Word, y: Word :| Joined(w, x, y) && Spells(g, s, h, t, x) && SpellsTimes(g, s, h, t, y, n - 1);
    var p :| Path(g, s, h, t, p) && PathWord(g, p) == x;
    PathKept(g, g', s, s, {t}, h, h, t, p);
    if n == 1 {
      assert w == x;
    } else {
      LoopJoin(g, g', s, h, t, y, n - 1);
      var q :| Path(g', s, h, t, q) && PathWord(g', q) == y;
      assert LinkedAt(g, g', t, {t}, h);
      PathJoin(g', s, h, t, h, t, p, q);
    }
  }

  /** A loop edge repeats a fragment's words. */
  lemma LoopWords(g: Graph, g': Graph, s: set<nat>, h: nat, t: nat, w: Word)
    requires Linked(g, g', s, {t}, h) && t in s
    ensures Spells(g', s, h, t, w) <==> SpellsRepeatedly(g, s, h, t, w)
  {
    if Spells(g', s, h, t, w) {
      var p :| Path(g', s, h, t, p) && PathWord(g', p) == w;
      var n := LoopSplit(g, g', s, h, t, p);
    }
    if SpellsRepeatedly(g, s, h, t, w) {
      var n: nat :| n >= 1 && SpellsTimes(g, s, h, t, w, n);
      LoopJoin(g, g', s, h, t, w, n);
    }
  }

  // Steps that consume nothing.

  /** Every edge out of a non-consuming node of s leads to a smaller rank, but for the nodes in tails. */
  ghost predicate Ranked(g: Graph, s: set<nat>, rank: map<nat, nat>, tails: set<nat>) {
    s <= rank.Keys && forall n :: n in s && n !in tails ==> RankedAt(g, rank, n)
  }

  ghost predicate RankedAt(g: Graph, rank: map<nat, nat>, n: nat)
    requires n in rank
  {
    n < |g| && (g[n].kind == EndNode ==> forall c :: c in g[n].next ==> c in rank && rank[c] < rank[n])
  }

  lemma RankBound(s: set<nat>, rank: map<nat, nat>) returns (k: nat)
    requires s <= rank.Keys
    ensures forall n :: n in s ==> rank[n] < k
  {
    k := 0;
    var rest := s;
    while rest != {}
      invariant rest <= s
      invariant forall n :: n in s && n !in rest ==> rank[n] < k
    {
      var n :| n in rest;
      rest := rest - {n};
      if rank[n] >= k {
        k := rank[n] + 1;
      }
    }
  }

  /** Adding edges at exempt nodes only keeps the rank. */
  lemma RankKept(g: Graph, g': Graph, s: set<nat>, sources: set<nat>, target: nat, rank: map<nat, nat>, tails: set<nat>)
    requires Linked(g, g', s, sources, target) && sources <= tails
    requires Ranked(g, s, rank, tails)
    ensures Ranked(g', s, rank, tails)
  {
    forall n | n in s && n !in tails
      ensures RankedAt(g', rank, n)
    {
      assert LinkedAt(g, g', n, sources, target) && RankedAt(g, rank, n);
    }
  }

  lemma ChainRanked(g: Graph, g': Graph, s: set<nat>, f: set<nat>, sources: set<nat>, nh: nat,
                    first: map<nat, nat>, second: map<nat, nat>, tails: set<nat>, tails': set<nat>)
    returns (rank: map<nat, nat>)
    requires s !! f && Closed(g, s) && Closed(g', f)
    requires Linked(g, g', s, sources, nh) && nh in f
    requires Ranked(g, s, first, tails) && Ranked(g', f, second, tails')
    ensures Ranked(g', s + f, rank, tails + tails')
  {
    var k := RankBound(f, second);
    rank := map n | n in s + f :: if n in f then second[n] else first[n] + k;
    forall n | n in s + f && n !in tails + tails'
      ensures RankedAt(g', rank, n)
    {
      if n in f {
        assert RankedAt(g', second, n);
      } else {
        assert RankedAt(g, first, n) && LinkedAt(g, g', n, sources, nh);
      }
    }
  }

  /** n can be reached from h without consuming anything before it. */
  ghost predicate EmptyTo(g: Graph, s: set<nat>, h: nat, n: nat) {
    exists p :: Path(g, s, h, n, p) && PathWord(g, p[..|p| - 1]) == []
  }

  lemma EmptyToStart(g: Graph, s: set<nat>, h: nat)
    requires h in s && h < |g|
    ensures EmptyTo(g, s, h, h)
  {
    assert Path(g, s, h, h, [h]) && PathWord(g, [h][..0]) == [];
  }

  lemma EmptyToNext(g: Graph, s: set<nat>, h: nat, n: nat, c: nat)
    requires EmptyTo(g, s, h, n) && g[n].kind == EndNode && Edge(g, n, c) && c in s && c < |g|
    ensures EmptyTo(g, s, h, c)
  {
    var p :| Path(g, s, h, n, p) && PathWord(g, p[..|p| - 1]) == [];
    EmptyToEnd(g, s, h, n, p);
    assert Path(g, s, c, c, [c]);
    PathJoin(g, s, h, n, c, c, p, [c]);
    assert (p + [c])[..|p + [c]| - 1] == p;
  }

  lemma EmptyToEnd(g: Graph, s: set<nat>, h: nat, n: nat, p: seq<nat>)
    requires Path(g, s, h, n, p) && PathWord(g, p[..|p| - 1]) == [] && g[n].kind == EndNode
    ensures PathWord(g, p) == []
  {
    hide PathWord;
    PathWordJoin(g, p[..|p| - 1], [n]);
    assert p == p[..|p| - 1] + [n];
    LoneWord(g, n);
  }

  lemma NotEmptyToTail(g: Graph, s: set<nat>, h: nat, t: nat)
    requires t < |g| && g[t].kind == EndNode && !Spells(g, s, h, t, [])
    ensures !EmptyTo(g, s, h, t)
  {
    if EmptyTo(g, s, h, t) {
      var p :| Path(g, s, h, t, p) && PathWord(g, p[..|p| - 1]) == [];
      EmptyToEnd(g, s, h, t, p);
    }
  }

  /** Looping a fragment that always consumes keeps a rank. */
  lemma LoopRanked(g: Graph, g': Graph, s: set<nat>, h: nat, t: nat, before: map<nat, nat>, tails: set<nat>)
    returns (rank: map<nat, nat>)
    requires Linked(g, g', s, {t}, h) && t in s && h in s && Closed(g, s)
    requires Ranked(g, s, before, tails) && !Spells(g, s, h, t, [])
    ensures Ranked(g', s, rank, tails)
  {
    var k := RankBound(s, before);
    rank := map n | n in s :: if EmptyTo(g, s, h, n) then before[n] else before[n] + k;
    EmptyToStart(g, s, h);
    forall n | n in s && n !in tails
      ensures RankedAt(g', rank, n)
    {
      assert RankedAt(g, before, n) && LinkedAt(g, g', n, {t}, h);
      if g[n].kind == EndNode {
        LoopRankedAt(g, g', s, h, t, before, k, rank, n);
      }
    }
  }

  lemma LoopRankedAt(g: Graph, g': Graph, s: set<nat>, h: nat, t: nat, before: map<nat, nat>, k: nat,
                     rank: map<nat, nat>, n: nat)
    requires n in s && t in s && h in s && Closed(g, s) && LinkedAt(g, g', n, {t}, h)
    requires s <= before.Keys && s <= rank.Keys && RankedAt(g, before, n) && g[n].kind == EndNode
    requires forall m :: m in s ==> before[m] < k && rank[m] == if EmptyTo(g, s, h, m) then before[m] else before[m] + k
    requires EmptyTo(g, s, h, h) && !Spells(g, s, h, t, [])
    ensures RankedAt(g', rank, n)
  {
    hide EmptyTo, Spells;
    if n == t {
      NotEmptyToTail(g, s, h, t);
    }
    forall c | c in g'[n].next
      ensures c in rank && rank[c] < rank[n]
    {
      if c in g[n].next && EmptyTo(g, s, h, n) {
        EmptyToNext(g, s, h, n, c);
      }
    }
  }
}
