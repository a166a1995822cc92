/** Groups of `src/Pattern.cpp` patterns that are repeated although they can be empty, as they stand in the graph:
    the tail of such a group leads back to its head before it leads anywhere else. */
module PatternTraps {
  import opened PatternLanguage
  import opened PatternAtoms
  import opened PatternGraph

  /** Some compiled word of the list can be passed; the strict kind consumes nothing. */
  ghost predicate Passable(strict: bool, items: seq<Item>) {
    exists w: Word :: Words(false, items, w) && Passing(strict, w)
  }

  /** A group that is repeated although it can be empty stands where some text leads, and where nothing leads around it:
      it is not inside an item that can be left out, unless the way to it from there consumes nothing. The strict kind
      is reached without consuming anything. */
  ghost predicate Trapped(strict: bool, items: seq<Item>)
    decreases items
  {
    items != [] && (Trapped(strict, Init(items)) ||
                    (Passable(strict, Init(items)) && TrappedItem(strict || Last(items).skip, Last(items))))
  }

  ghost predicate TrappedItem(strict: bool, item: Item)
    decreases item, 1
  {
    (item.loop && BodyNullable(item)) || TrappedBody(strict, item.body)
  }

  ghost predicate TrappedBody(strict: bool, body: Body)
    decreases body, 0
  {
    body.Group? && Trapped(strict, body.items)
  }

  // In the graph.

  /** The region is left through t only, and the children of t begin, in order, with some inside the region,
      up to one from which t is reached again without consuming anything. */
  ghost predicate IsTrap(g: Graph, region: set<nat>, t: nat) {
    && t in region && t < |g| && g[t].kind == EndNode
    && (forall n :: n in region && n != t ==> n < |g| && g[n].next != [] && forall c :: c in g[n].next ==> c in region)
    && exists j: nat :: ReturnsAt(g, region, t, j)
  }

  ghost predicate ReturnsAt(g: Graph, region: set<nat>, t: nat, j: nat)
    requires t < |g|
  {
    && j < |g[t].next| && (forall i :: 0 <= i <= j ==> g[t].next[i] in region)
    && Spells(g, region, g[t].next[j], t, [])
  }

  /** t is the tail of a trap in s that edges from `out` do not open elsewhere. */
  ghost predicate TrapAt(g: Graph, s: set<nat>, out: set<nat>, t: nat) {
    exists region :: region <= s && IsTrap(g, region, t) && region * out <= {t}
  }

  lemma Position(xs: seq<nat>, x: nat) returns (j: nat)
    requires x in xs
    ensures j < |xs| && xs[j] == x
  {
    j :| j < |xs| && xs[j] == x;
  }

  lemma SpellsKept(g: Graph, g': Graph, s: set<nat>, s': set<nat>, sources: set<nat>, target: nat, a: nat, b: nat,
                   w: Word)
    requires Linked(g, g', s, sources, target) && s <= s' && Spells(g, s, a, b, w)
    ensures Spells(g', s', a, b, w)
  {
    var p :| Path(g, s, a, b, p) && PathWord(g, p) == w;
    PathKept(g, g', s, s', sources, target, a, b, p);
  }

  lemma TrapKept(g: Graph, g': Graph, s: set<nat>, region: set<nat>, sources: set<nat>, target: nat, t: nat)
    requires Linked(g, g', s, sources, target) && region <= s
    requires IsTrap(g, region, t) && region * sources <= {t}
    ensures IsTrap(g', region, t)
  {
    hide Spells;
    assert LinkedAt(g, g', t, sources, target);
    var j: nat :| ReturnsAt(g, region, t, j);
    var h := g[t].next[j];
    assert Linked(g, g', region, sources, target);
    SpellsKept(g, g', region, region, sources, target, h, t, []);
    assert ReturnsAt(g', region, t, j);
    forall n | n in region && n != t
      ensures n < |g'| && g'[n].next != [] && forall c :: c in g'[n].next ==> c in region
    {
      assert LinkedAt(g, g', n, sources, target);
      assert n in sources ==> n in region * sources;
    }
  }

  lemma TrapAtKept(g: Graph, g': Graph, s: set<nat>, s': set<nat>, sources: set<nat>, target: nat, out: set<nat>,
                   out': set<nat>, t: nat)
    requires Linked(g, g', s, sources, target) && s <= s'
    requires TrapAt(g, s, out, t) && sources <= out && s * out' <= out
    ensures TrapAt(g', s', out', t)
  {
    hide IsTrap;
    var region :| region <= s && IsTrap(g, region, t) && region * out <= {t};
    TrapKept(g, g', s, region, sources, target, t);
    assert region <= s' && IsTrap(g', region, t) && region * out' <= {t};
  }

  /** Looping a fragment that can spell nothing makes its tail the tail of a trap. */
  lemma NullableLoopIsTrap(g: Graph, g': Graph, s: set<nat>, h: nat, t: nat)
    requires Linked(g, g', s, {t}, h) && t in s && h in s && Closed(g, s)
    requires forall n :: n in s && n != t ==> n < |g| && g[n].next != []
    requires Spells(g, s, h, t, [])
    ensures IsTrap(g', s, t)
  {
    EmptyTail(g, s, h, t);
    assert LinkedAt(g, g', t, {t}, h);
    SpellsKept(g, g', s, s, {t}, h, h, t, []);
    var j := Position(g'[t].next, h);
    hide Spells;
    forall i | 0 <= i <= j
      ensures g'[t].next[i] in s
    {
      assert g'[t].next[i] in g'[t].next;
    }
    assert ReturnsAt(g', s, t, j);
    forall n | n in s && n != t
      ensures n < |g'| && g'[n].next != [] && forall c :: c in g'[n].next ==> c in s
    {
      assert LinkedAt(g, g', n, {t}, h);
    }
  }

  lemma EmptyTail(g: Graph, s: set<nat>, h: nat, t: nat)
    requires Spells(g, s, h, t, [])
    ensures t < |g| && g[t].kind == EndNode
  {
    var p :| Path(g, s, h, t, p) && PathWord(g, p) == [];
    hide PathWord, EdgeAt;
    EmptyWordEnds(g, p);
  }

  lemma EmptyWordEnds(g: Graph, p: seq<nat>)
    requires p != [] && (forall i :: 0 <= i < |p| ==> p[i] < |g|) && PathWord(g, p) == []
    ensures g[p[|p| - 1]].kind == EndNode
  {
    hide PathWord;
    var init, t := p[..|p| - 1], p[|p| - 1];
    PathWordJoin(g, init, [t]);
    assert p == init + [t];
    LoneWord(g, t);
  }

  // What keeps the matcher from running for ever.

  /** The rank falls along non-consuming edges, except at the tails of traps, of which there are none if ok. */
  ghost predicate ProgressBy(g: Graph, s: set<nat>, out: set<nat>, ok: bool, rank: map<nat, nat>, tails: set<nat>) {
    && Ranked(g, s, rank, tails) && tails <= s && (ok <==> tails == {})
    && forall t :: t in tails ==> TrapAt(g, s, out, t)
  }

  ghost predicate Progress(g: Graph, s: set<nat>, out: set<nat>, ok: bool) {
    exists rank, tails :: ProgressBy(g, s, out, ok, rank, tails)
  }

  lemma ProgressKept(g: Graph, g': Graph, s: set<nat>, c: nat, out: set<nat>, ok: bool)
    requires Progress(g, s, out, ok) && Linked(g, g', s, {}, c)
    ensures Progress(g', s, out, ok)
  {
    hide TrapAt;
    var rank, tails :| ProgressBy(g, s, out, ok, rank, tails);
    RankKept(g, g', s, {}, c, rank, tails);
    forall t | t in tails
      ensures TrapAt(g', s, out, t)
    {
      TrapAtKept(g, g', s, s, {}, c, out, out, t);
    }
    assert ProgressBy(g', s, out, ok, rank, tails);
  }

  lemma ChainProgress(g: Graph, g': Graph, s: set<nat>, f: set<nat>, sources: set<nat>, nh: nat, out: set<nat>,
                      out': set<nat>, ok: bool, ok': bool)
    requires s !! f && Closed(g, s) && Closed(g', f) && nh in f
    requires Linked(g, g', s, sources, nh)
    requires Progress(g, s, sources, ok) && Progress(g', f, out, ok')
    requires s * out' <= sources && f * out' <= out
    ensures Progress(g', s + f, out', ok && ok')
  {
    hide TrapAt, Ranked, Closed;
    var first, tails :| ProgressBy(g, s, sources, ok, first, tails);
    var second, tails' :| ProgressBy(g', f, out, ok', second, tails');
    var rank := ChainRanked(g, g', s, f, sources, nh, first, second, tails, tails');
    forall t | t in tails + tails'
      ensures TrapAt(g', s + f, out', t)
    {
      if t in tails {
        TrapAtKept(g, g', s, s + f, sources, nh, sources, out', t);
      } else {
        TrapAtWider(g', f, s + f, out, out', t);
      }
    }
    assert ProgressBy(g', s + f, out', ok && ok', rank, tails + tails');
  }

  lemma TrapAtWider(g: Graph, s: set<nat>, s': set<nat>, out: set<nat>, out': set<nat>, t: nat)
    requires s <= s' && TrapAt(g, s, out, t) && s * out' <= out
    ensures TrapAt(g, s', out', t)
  {
    hide IsTrap;
    var region :| region <= s && IsTrap(g, region, t) && region * out <= {t};
    assert region <= s' && IsTrap(g, region, t) && region * out' <= {t};
  }

  /** A start-over edge adds one trap if the body can be empty, and none if it cannot. */
  lemma LoopProgress(g: Graph, g': Graph, s: set<nat>, h: nat, t: nat, ok: bool, nullable: bool)
    requires Linked(g, g', s, {t}, h) && t in s && h in s && Closed(g, s)
    requires forall n :: n in s && n != t ==> n < |g| && g[n].next != []
    requires nullable <==> Spells(g, s, h, t, [])
    requires Progress(g, s, {t}, ok)
    ensures Progress(g', s, {t}, ok && !nullable)
  {
    hide IsTrap, Ranked, Closed, Spells, Linked;
    var rank, tails :| ProgressBy(g, s, {t}, ok, rank, tails);
    forall x | x in tails
      ensures TrapAt(g', s, {t}, x)
    {
      TrapAtKept(g, g', s, s, {t}, h, {t}, {t}, x);
    }
    if nullable {
      var tails' := tails + {t};
      RanksFewer(g, s, rank, tails, tails');
      RankKept(g, g', s, {t}, h, rank, tails');
      NullableLoopIsTrap(g, g', s, h, t);
      assert s <= s && IsTrap(g', s, t) && s * {t} <= {t};
      assert ProgressBy(g', s, {t}, ok && !nullable, rank, tails');
    } else {
      var rank' := LoopRanked(g, g', s, h, t, rank, tails);
      assert ProgressBy(g', s, {t}, ok && !nullable, rank', tails);
    }
  }

  lemma RanksFewer(g: Graph, s: set<nat>, rank: map<nat, nat>, tails: set<nat>, tails': set<nat>)
    requires Ranked(g, s, rank, tails) && tails <= tails'
    ensures Ranked(g, s, rank, tails')
  {
  }

  // Paths that a trap bars.

  /** On the way from n to c, a child of n is tried first from which t is reached without consuming anything. */
  ghost predicate PassesBy(g: Graph, s: set<nat>, t: nat, n: nat, c: nat)
    requires n < |g|
  {
    exists j: nat :: j < |g[n].next| && Spells(g, s, g[n].next[j], t, []) && c !in g[n].next[..j + 1]
  }

  /** Whoever follows p child by child, trying earlier children first, comes to t. */
  ghost predicate Meets(g: Graph, s: set<nat>, t: nat, p: seq<nat>) {
    exists i: nat :: MeetsAt(g, s, t, p, i)
  }

  ghost predicate MeetsAt(g: Graph, s: set<nat>, t: nat, p: seq<nat>, i: nat) {
    i < |p| && p[i] < |g| && (p[i] == t || (i + 1 < |p| && PassesBy(g, s, t, p[i], p[i + 1])))
  }

  ghost predicate Barred(g: Graph, s: set<nat>, t: nat, a: nat, b: nat) {
    forall p :: Path(g, s, a, b, p) ==> Meets(g, s, t, p)
  }

  /** Some child of x leads to t without consuming anything, so that children added later come after it. */
  ghost predicate Ahead(g: Graph, s: set<nat>, t: nat, x: nat) {
    x < |g| && exists j: nat :: j < |g[x].next| && Spells(g, s, g[x].next[j], t, [])
  }

  ghost predicate ReachedBy(g: Graph, s: set<nat>, a: nat, t: nat, strict: bool) {
    exists w: Word :: Passing(strict, w) && Spells(g, s, a, t, w)
  }

  /** A trap that some text leads to, and that nothing gets past: neither to the tail nor beyond the pending source. */
  ghost predicate Snare(g: Graph, s: set<nat>, head: nat, tail: nat, pending: set<nat>, strict: bool, t: nat) {
    && t in s && TrapAt(g, s, {tail} + pending, t) && ReachedBy(g, s, head, t, strict) && Barred(g, s, t, head, tail)
    && forall x :: x in pending ==> Barred(g, s, t, head, x) || Ahead(g, s, t, x)
  }

  ghost predicate Snared(g: Graph, s: set<nat>, head: nat, tail: nat, pending: set<nat>, strict: bool) {
    exists t :: Snare(g, s, head, tail, pending, strict, t)
  }

  lemma PassesByKept(g: Graph, g': Graph, s: set<nat>, s': set<nat>, sources: set<nat>, target: nat, t: nat, n: nat,
                     c: nat)
    requires Linked(g, g', s, sources, target) && s <= s' && n in s && n < |g|
    requires PassesBy(g, s, t, n, c)
    ensures n < |g'| && PassesBy(g', s', t, n, c)
  {
    hide Spells;
    assert LinkedAt(g, g', n, sources, target);
    var j: nat :| j < |g[n].next| && Spells(g, s, g[n].next[j], t, []) && c !in g[n].next[..j + 1];
    SpellsKept(g, g', s, s', sources, target, g[n].next[j], t, []);
    assert g'[n].next[..j + 1] == g[n].next[..j + 1];
  }

  lemma MeetsKept(g: Graph, g': Graph, s: set<nat>, s': set<nat>, sources: set<nat>, target: nat, t: nat, p: seq<nat>)
    requires Linked(g, g', s, sources, target) && s <= s'
    requires forall i :: 0 <= i < |p| ==> p[i] in s
    requires Meets(g, s, t, p)
    ensures Meets(g', s', t, p)
  {
    hide PassesBy;
    var i: nat :| MeetsAt(g, s, t, p, i);
    assert LinkedAt(g, g', p[i], sources, target);
    if p[i] != t {
      PassesByKept(g, g', s, s', sources, target, t, p[i], p[i + 1]);
    }
    assert MeetsAt(g', s', t, p, i);
  }

  lemma MeetsMore(g: Graph, s: set<nat>, t: nat, p: seq<nat>, q: seq<nat>)
    requires Meets(g, s, t, p) || Meets(g, s, t, q)
    ensures Meets(g, s, t, p + q)
  {
    hide PassesBy;
    var pq := p + q;
    if Meets(g, s, t, p) {
      var i: nat :| MeetsAt(g, s, t, p, i);
      assert pq[i] == p[i] && (i + 1 < |p| ==> pq[i + 1] == p[i + 1]);
      assert MeetsAt(g, s, t, pq, i);
    } else {
      var i: nat :| MeetsAt(g, s, t, q, i);
      var m := |p| + i;
      assert pq[m] == q[i] && (i + 1 < |q| ==> pq[m + 1] == q[i + 1]);
      assert MeetsAt(g, s, t, pq, m);
    }
  }

  lemma PassedMeets(g: Graph, s: set<nat>, t: nat, p: seq<nat>, i: nat)
    requires i + 1 < |p| && p[i] < |g| && PassesBy(g, s, t, p[i], p[i + 1])
    ensures Meets(g, s, t, p)
  {
    hide PassesBy;
    assert MeetsAt(g, s, t, p, i);
  }

  lemma AheadKept(g: Graph, g': Graph, s: set<nat>, s': set<nat>, sources: set<nat>, target: nat, t: nat, x: nat)
    requires Linked(g, g', s, sources, target) && s <= s' && x in s
    requires Ahead(g, s, t, x)
    ensures Ahead(g', s', t, x)
  {
    hide Spells;
    assert LinkedAt(g, g', x, sources, target);
    var j: nat :| j < |g[x].next| && Spells(g, s, g[x].next[j], t, []);
    SpellsKept(g, g', s, s', sources, target, g[x].next[j], t, []);
    assert g'[x].next[j] == g[x].next[j];
  }

  /** An edge added at x comes after the children that x had. */
  lemma AheadPassesBy(g: Graph, g': Graph, s: set<nat>, s': set<nat>, sources: set<nat>, nh: nat, t: nat, x: nat)
    requires Linked(g, g', s, sources, nh) && s <= s' && Closed(g, s) && x in s && nh !in s
    requires Ahead(g, s, t, x)
    ensures x < |g'| && PassesBy(g', s', t, x, nh)
  {
    hide Spells;
    assert LinkedAt(g, g', x, sources, nh);
    var j: nat :| j < |g[x].next| && Spells(g, s, g[x].next[j], t, []);
    SpellsKept(g, g', s, s', sources, nh, g[x].next[j], t, []);
    assert g'[x].next[..j + 1] == g[x].next[..j + 1];
    assert nh !in g[x].next;
  }

  lemma SnareUntouched(g: Graph, g': Graph, s: set<nat>, head: nat, tail: nat, pending: set<nat>, strict: bool)
    requires Linked(g, g', s, {}, 0) && pending <= s && Snared(g, s, head, tail, pending, strict)
    ensures Snared(g', s, head, tail, pending, strict)
  {
    hide TrapAt, Linked, Ahead, Barred, ReachedBy;
    var t :| Snare(g, s, head, tail, pending, strict, t);
    TrapAtKept(g, g', s, s, {}, 0, {tail} + pending, {tail} + pending, t);
    ReachedKept(g, g', s, s, {}, 0, head, t, strict);
    BarredUntouched(g, g', s, t, head, tail);
    forall x | x in pending
      ensures Barred(g', s, t, head, x) || Ahead(g', s, t, x)
    {
      if Barred(g, s, t, head, x) {
        BarredUntouched(g, g', s, t, head, x);
      } else {
        AheadKept(g, g', s, s, {}, 0, t, x);
      }
    }
    assert Snare(g', s, head, tail, pending, strict, t);
  }

  lemma ReachedKept(g: Graph, g': Graph, s: set<nat>, s': set<nat>, sources: set<nat>, target: nat, a: nat, t: nat,
                    strict: bool)
    requires Linked(g, g', s, sources, target) && s <= s' && ReachedBy(g, s, a, t, strict)
    ensures ReachedBy(g', s', a, t, strict)
  {
    hide Spells, Passing;
    var w: Word :| Passing(strict, w) && Spells(g, s, a, t, w);
    SpellsKept(g, g', s, s', sources, target, a, t, w);
  }

  lemma BarredUntouched(g: Graph, g': Graph, s: set<nat>, t: nat, a: nat, b: nat)
    requires Linked(g, g', s, {}, 0) && Barred(g, s, t, a, b)
    ensures Barred(g', s, t, a, b)
  {
    hide Meets;
    forall p | Path(g', s, a, b, p)
      ensures Meets(g', s, t, p)
    {
      PathOld(g, g', s, {}, 0, a, b, p);
      MeetsKept(g, g', s, s, {}, 0, t, p);
    }
  }

  /** A start-over edge leaves a trap inside the body where it is. */
  lemma SnareInLoop(g: Graph, g': Graph, s: set<nat>, h: nat, tail: nat, strict: bool)
    requires Linked(g, g', s, {tail}, h) && Snared(g, s, h, tail, {}, strict)
    ensures Snared(g', s, h, tail, {}, strict)
  {
    hide TrapAt, Linked, ReachedBy, Meets;
    var t :| Snare(g, s, h, tail, {}, strict, t);
    TrapAtKept(g, g', s, s, {tail}, h, {tail} + {}, {tail} + {}, t);
    ReachedKept(g, g', s, s, {tail}, h, h, t, strict);
    forall p | Path(g', s, h, tail, p)
      ensures Meets(g', s, t, p)
    {
      FirstRoundMeets(g, g', s, h, tail, t, p);
    }
    assert Snare(g', s, h, tail, {}, strict, t);
  }

  lemma FirstRoundMeets(g: Graph, g': Graph, s: set<nat>, h: nat, tail: nat, t: nat, p: seq<nat>)
    requires Linked(g, g', s, {tail}, h) && Barred(g, s, t, h, tail) && Path(g', s, h, tail, p)
    ensures Meets(g', s, t, p)
  {
    hide Linked, Meets, Path, PathWord, FirstUse;
    var q, r := FirstRoundOf(g, g', s, h, tail, p);
    PathNodes(g', s, h, tail, p);
    PathNodes(g, s, h, tail, q);
    assert Meets(g, s, t, q);
    assert forall i :: 0 <= i < |q| ==> q[i] == p[i];
    MeetsKept(g, g', s, s, {tail}, h, t, q);
    assert forall i :: 0 <= i < |r| ==> r[i] == p[|q| + i];
    MeetsMore(g', s, t, q, r);
  }

  lemma PathNodes(g: Graph, s: set<nat>, a: nat, b: nat, p: seq<nat>)
    requires Path(g, s, a, b, p)
    ensures forall i :: 0 <= i < |p| ==> p[i] in s && p[i] < |g|
  {
  }

  lemma FirstRoundOf(g: Graph, g': Graph, s: set<nat>, h: nat, tail: nat, p: seq<nat>)
    returns (q: seq<nat>, r: seq<nat>)
    requires Linked(g, g', s, {tail}, h) && Path(g', s, h, tail, p)
    ensures p == q + r && Path(g, s, h, tail, q)
  {
    hide Linked, PathWord, FirstUse;
    var i := FirstUse(p, tail, h);
    q, r := p[..i + 1], p[i + 1..];
    if i < |p| - 1 {
      PathSplit(g', s, h, tail, p, i + 1);
    } else {
      assert q == p;
    }
    PathOld(g, g', s, {tail}, h, h, tail, q);
  }

  /** A start-over edge on a body that can be empty makes a trap of it. */
  lemma SnareByLoop(g: Graph, g': Graph, s: set<nat>, h: nat, t: nat, strict: bool)
    requires Linked(g, g', s, {t}, h) && t in s && h in s && Closed(g, s)
    requires forall n :: n in s && n != t ==> n < |g| && g[n].next != []
    requires Spells(g, s, h, t, [])
    ensures Snared(g', s, h, t, {}, strict)
  {
    NullableLoopIsTrap(g, g', s, h, t);
    SpellsKept(g, g', s, s, {t}, h, h, t, []);
    hide IsTrap, Spells, Linked;
    assert s <= s && IsTrap(g', s, t) && s * ({t} + {}) <= {t};
    assert Passing(strict, []) && Spells(g', s, h, t, []);
    forall p | Path(g', s, h, t, p)
      ensures Meets(g', s, t, p)
    {
      EndsMeet(g', s, t, p);
    }
    assert Snare(g', s, h, t, {}, strict, t);
  }

  /** Whatever a snare bars stays barred when the next fragment is linked on. */
  lemma BarredBeyond(g: Graph, g': Graph, s: set<nat>, f: set<nat>, head: nat, tail: nat, pending: set<nat>,
                     strict: bool, t: nat, nh: nat, b: nat, p: seq<nat>)
    requires s !! f && Closed(g, s) && Closed(g', f) && nh in f && b in f && head in s
    requires Linked(g, g', s, {tail} + pending, nh) && tail in s && pending <= s
    requires Snare(g, s, head, tail, pending, strict, t)
    requires Path(g', s + f, head, b, p)
    ensures Meets(g', s + f, t, p)
  {
    hide TrapAt, ReachedBy, Meets, PassesBy, Ahead, Barred, Linked, Path, Closed;
    var k := Crossing(g, g', s, f, {tail} + pending, head, nh, b, p);
    PathNodes(g', s + f, head, b, p);
    var x := p[k - 1];
    if Barred(g, s, t, head, x) {
      BarredBefore(g, g', s, f, {tail} + pending, head, nh, t, p, k);
    } else {
      AheadPassesBy(g, g', s, s + f, {tail} + pending, nh, t, x);
      PassedMeets(g', s + f, t, p, k - 1);
    }
  }

  /** Where a path goes over from the first fragment into the second. */
  lemma Crossing(g: Graph, g': Graph, s: set<nat>, f: set<nat>, sources: set<nat>, head: nat, nh: nat, b: nat,
                 p: seq<nat>)
    returns (k: nat)
    requires s !! f && Closed(g, s) && Closed(g', f) && nh in f && b in f && head in s
    requires Linked(g, g', s, sources, nh) && Path(g', s + f, head, b, p)
    ensures 0 < k < |p| && p[k - 1] in sources && p[k - 1] in s && p[k] == nh
    ensures Path(g, s, head, p[k - 1], p[..k]) && Path(g', f, nh, b, p[k..])
    ensures Path(g', s + f, head, p[k - 1], p[..k])
  {
    hide PathWord, FirstIn;
    k := FirstIn(p, f);
    PathSplit(g', s + f, head, b, p, k);
    var x := p[k - 1];
    assert p[..k][k - 1] == x && x in s;
    assert LinkedAt(g, g', x, sources, nh);
    assert p[k] == nh && x in sources;
    hide Path;
    NeverLeft(g, g', s, f, sources, nh, head, x, p[..k]);
    StaysInside(g', s + f, f, nh, b, p[k..]);
  }

  lemma BarredBefore(g: Graph, g': Graph, s: set<nat>, f: set<nat>, sources: set<nat>, head: nat, nh: nat, t: nat,
                     p: seq<nat>, k: nat)
    requires Linked(g, g', s, sources, nh) && 0 < k < |p| && forall i :: 0 <= i < |p| ==> p[i] < |g'|
    requires Barred(g, s, t, head, p[k - 1]) && Path(g, s, head, p[k - 1], p[..k])
    ensures Meets(g', s + f, t, p)
  {
    hide Meets, Linked;
    var u, v := p[..k], p[k..];
    assert p == u + v && forall i :: 0 <= i < |u| ==> u[i] == p[i];
    MeetsKept(g, g', s, s + f, sources, nh, t, u);
    MeetsMore(g', s + f, t, u, v);
  }

  lemma SnareLinked(g: Graph, g': Graph, s: set<nat>, f: set<nat>, head: nat, tail: nat, pending: set<nat>,
                    strict: bool, nh: nat, nt: nat, pending': set<nat>)
    requires s !! f && Closed(g, s) && Closed(g', f) && nh in f && nt in f && head in s
    requires Linked(g, g', s, {tail} + pending, nh) && tail in s && pending <= s && pending' <= {tail}
    requires Snared(g, s, head, tail, pending, strict)
    ensures Snared(g', s + f, head, nt, pending', strict)
  {
    hide TrapAt, Linked, ReachedBy, Meets, Ahead, Closed;
    var t :| Snare(g, s, head, tail, pending, strict, t);
    TrapAtKept(g, g', s, s + f, {tail} + pending, nh, {tail} + pending, {nt} + pending', t);
    ReachedKept(g, g', s, s + f, {tail} + pending, nh, head, t, strict);
    forall p | Path(g', s + f, head, nt, p)
      ensures Meets(g', s + f, t, p)
    {
      BarredBeyond(g, g', s, f, head, tail, pending, strict, t, nh, nt, p);
    }
    forall p | Path(g', s + f, head, tail, p)
      ensures Meets(g', s + f, t, p)
    {
      NeverLeft(g, g', s, f, {tail} + pending, nh, head, tail, p);
      MeetsKept(g, g', s, s + f, {tail} + pending, nh, t, p);
    }
    assert Snare(g', s + f, head, nt, pending', strict, t);
  }

  /** A fragment with a trap of its own, linked on behind something that can be passed. If it can be skipped,
      the way around it starts where the way into it does. */
  lemma SnareFollows(g: Graph, g': Graph, s: set<nat>, f: set<nat>, head: nat, tail: nat, pending: set<nat>,
                     strict: bool, nh: nat, nt: nat, skip: bool)
    requires s !! f && Closed(g, s) && Closed(g', f) && nh in f && nt in f && head in s
    requires Linked(g, g', s, {tail} + pending, nh) && tail in s && pending <= s
    requires Snared(g', f, nh, nt, {}, strict || skip)
    requires exists x :: x in {tail} + pending && ReachedBy(g, s, head, x, strict)
    ensures Snared(g', s + f, head, nt, if skip then {tail} else {}, strict)
  {
    hide TrapAt, Meets, Closed, Spells, Linked, Ahead;
    var t :| Snare(g', f, nh, nt, {}, strict || skip, t);
    var pending': set<nat> := if skip then {tail} else {};
    TrapAtWider(g', f, s + f, {nt} + {}, {nt} + pending', t);
    var x :| x in {tail} + pending && ReachedBy(g, s, head, x, strict);
    ReachedThrough(g, g', s, f, head, x, {tail} + pending, nh, t, strict, strict || skip);
    forall p | Path(g', s + f, head, nt, p)
      ensures Meets(g', s + f, t, p)
    {
      EndMeets(g, g', s, f, head, {tail} + pending, nh, nt, t, p);
    }
    if skip {
      AheadOfSkip(g, g', s, f, tail, {tail} + pending, nh, t);
    }
    assert Snare(g', s + f, head, nt, pending', strict, t);
  }

  lemma SpellsWider(g: Graph, s: set<nat>, s': set<nat>, a: nat, b: nat, w: Word)
    requires s <= s' && Spells(g, s, a, b, w)
    ensures Spells(g, s', a, b, w)
  {
    var p :| Path(g, s, a, b, p) && PathWord(g, p) == w;
    assert Path(g, s', a, b, p);
  }

  lemma ReachedThrough(g: Graph, g': Graph, s: set<nat>, f: set<nat>, head: nat, x: nat, sources: set<nat>, nh: nat,
                       t: nat, strict: bool, strict': bool)
    requires s !! f && Closed(g, s) && Closed(g', f) && nh in f && head in s && t in f
    requires Linked(g, g', s, sources, nh) && sources <= s && x in sources
    requires ReachedBy(g, s, head, x, strict) && ReachedBy(g', f, nh, t, strict') && (strict ==> strict')
    ensures ReachedBy(g', s + f, head, t, strict)
  {
    hide Spells, Linked, Closed;
    var u: Word :| Passing(strict, u) && Spells(g, s, head, x, u);
    var v: Word :| Passing(strict', v) && Spells(g', f, nh, t, v);
    assert Joined(u + v, u, v) && x in sources && Spells(g, s, head, x, u) && Spells(g', f, nh, t, v);
    ChainWords(g, g', s, f, sources, head, nh, t, u + v);
    assert Passing(strict, v);
    PassingJoin(strict, u, v);
  }

  lemma EndMeets(g: Graph, g': Graph, s: set<nat>, f: set<nat>, head: nat, sources: set<nat>, nh: nat, nt: nat, t: nat,
                 p: seq<nat>)
    requires s !! f && Closed(g, s) && Closed(g', f) && nh in f && nt in f && head in s
    requires Linked(g, g', s, sources, nh) && Barred(g', f, t, nh, nt)
    requires Path(g', s + f, head, nt, p)
    ensures Meets(g', s + f, t, p)
  {
    hide Meets, Linked, Closed;
    var k := Crossing(g, g', s, f, sources, head, nh, nt, p);
    var u, v := p[..k], p[k..];
    assert p == u + v;
    MeetsWider(g', f, s + f, t, v);
    MeetsMore(g', s + f, t, u, v);
  }

  lemma MeetsWider(g: Graph, s: set<nat>, s': set<nat>, t: nat, p: seq<nat>)
    requires s <= s' && Meets(g, s, t, p)
    ensures Meets(g, s', t, p)
  {
    hide PassesBy;
    var i: nat :| MeetsAt(g, s, t, p, i);
    if p[i] != t {
      PassesByWider(g, s, s', t, p[i], p[i + 1]);
    }
    assert MeetsAt(g, s', t, p, i);
  }

  lemma PassesByWider(g: Graph, s: set<nat>, s': set<nat>, t: nat, n: nat, c: nat)
    requires s <= s' && n < |g| && PassesBy(g, s, t, n, c)
    ensures PassesBy(g, s', t, n, c)
  {
    hide Spells;
    var j: nat :| j < |g[n].next| && Spells(g, s, g[n].next[j], t, []) && c !in g[n].next[..j + 1];
    SpellsWider(g, s, s', g[n].next[j], t, []);
  }

  lemma EndsMeet(g: Graph, s: set<nat>, t: nat, p: seq<nat>)
    requires p != [] && p[|p| - 1] == t < |g|
    ensures Meets(g, s, t, p)
  {
    assert MeetsAt(g, s, t, p, |p| - 1);
  }

  lemma AheadOfSkip(g: Graph, g': Graph, s: set<nat>, f: set<nat>, tail: nat, sources: set<nat>, nh: nat, t: nat)
    requires Linked(g, g', s, sources, nh) && tail in s && tail in sources
    requires ReachedBy(g', f, nh, t, true)
    ensures Ahead(g', s + f, t, tail)
  {
    hide Spells;
    var w: Word :| Passing(true, w) && Spells(g', f, nh, t, w);
    assert w == [];
    SpellsWider(g', f, s + f, nh, t, []);
    assert LinkedAt(g, g', tail, sources, nh);
    var j := Position(g'[tail].next, nh);
    assert Spells(g', s + f, g'[tail].next[j], t, []);
  }
}
