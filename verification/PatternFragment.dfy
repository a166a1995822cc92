/** What `parsePat` keeps true of the graph while it reads a pattern item by item. */
module PatternFragment {
  import opened PatternLanguage
  import opened PatternAtoms
  import opened PatternGraph
  import opened PatternTraps

  /** Every node of s but the tail has somewhere to go. */
  ghost predicate OnlyTailEnds(g: Graph, s: set<nat>, tail: nat) {
    forall n :: n in s && n != tail ==> n < |g| && g[n].next != []
  }

  ghost predicate AllWellMade(g: Graph, s: set<nat>) {
    forall n :: n in s ==> n < |g| && WellMade(g[n])
  }

  ghost predicate Shape(g: Graph, s: set<nat>, head: nat, tail: nat) {
    head in s && tail in s && Closed(g, s) && OnlyTailEnds(g, s, tail) && AllWellMade(g, s)
  }

  ghost predicate SpellsWords(g: Graph, s: set<nat>, head: nat, tail: nat, items: seq<Item>) {
    forall w: Word :: Spells(g, s, head, tail, w) <==> Words(false, items, w)
  }

  ghost predicate SpellsTaken(g: Graph, s: set<nat>, head: nat, tail: nat, items: seq<Item>) {
    forall w: Word :: Spells(g, s, head, tail, w) <==> Taken(false, items, w)
  }

  ghost predicate SpellsSkipped(g: Graph, s: set<nat>, head: nat, pending: int, items: seq<Item>) {
    forall w: Word :: Skipped(false, items, w) <==> pending >= 0 && Spells(g, s, head, pending, w)
  }

  ghost predicate SpellsBody(g: Graph, s: set<nat>, head: nat, tail: nat, body: Body) {
    forall w: Word :: Spells(g, s, head, tail, w) <==> BodyWord(false, body, w)
  }

  ghost predicate SpellsItem(g: Graph, s: set<nat>, head: nat, tail: nat, item: Item) {
    forall w: Word :: Spells(g, s, head, tail, w) <==> OnceOrMore(false, item, w)
  }

  /** A group that is repeated although it can be empty bars the way, where it is exposed. */
  ghost predicate BarredByTraps(g: Graph, s: set<nat>, head: nat, tail: nat, pending: set<nat>, items: seq<Item>) {
    forall strict :: Trapped(strict, items) ==> Snared(g, s, head, tail, pending, strict)
  }

  ghost predicate BarredInside(g: Graph, s: set<nat>, head: nat, tail: nat, body: Body) {
    body.Group? ==> BarredByTraps(g, s, head, tail, {}, body.items)
  }

  ghost predicate BarredByItem(g: Graph, s: set<nat>, head: nat, tail: nat, item: Item) {
    forall strict :: TrappedItem(strict, item) ==> Snared(g, s, head, tail, {}, strict)
  }

  /** A finished list of items: head-to-tail paths spell its compiled language. */
  ghost predicate Fragment(g: Graph, s: set<nat>, head: nat, tail: nat, items: seq<Item>) {
    && Shape(g, s, head, tail) && SpellsWords(g, s, head, tail, items)
    && Progress(g, s, {tail}, NoNullableLoops(items)) && BarredByTraps(g, s, head, tail, {}, items)
  }

  predicate NoNullableLoopIn(body: Body) {
    body.Group? ==> NoNullableLoops(body.items)
  }

  /** One body, before its quantifier. */
  ghost predicate BodyFragment(g: Graph, s: set<nat>, head: nat, tail: nat, body: Body) {
    && Shape(g, s, head, tail) && SpellsBody(g, s, head, tail, body)
    && Progress(g, s, {tail}, NoNullableLoopIn(body)) && BarredInside(g, s, head, tail, body)
  }

  ghost predicate ItemFragment(g: Graph, s: set<nat>, head: nat, tail: nat, item: Item) {
    && Shape(g, s, head, tail) && SpellsItem(g, s, head, tail, item)
    && Progress(g, s, {tail}, NoNullableLoopInside(item)) && BarredByItem(g, s, head, tail, item)
  }

  function Pending(pending: int): set<nat> {
    if pending < 0 then {} else {pending}
  }

  /** Between two items. `addChildToThis` (here `pending`, negative when null) is the skip source:
      paths to it spell the words that leave the last item out. */
  ghost predicate Building(g: Graph, s: set<nat>, head: nat, tail: nat, pending: int, done: seq<Item>) {
    && Shape(g, s, head, tail) && Pending(pending) <= s
    && SpellsTaken(g, s, head, tail, done) && SpellsSkipped(g, s, head, pending, done)
    && Progress(g, s, {tail} + Pending(pending), NoNullableLoops(done))
    && BarredByTraps(g, s, head, tail, Pending(pending), done)
  }

  // Untouched fragments.

  lemma SameWords(g: Graph, g': Graph, s: set<nat>, a: nat, b: nat)
    requires Linked(g, g', s, {}, 0)
    ensures forall w: Word :: Spells(g, s, a, b, w) <==> Spells(g', s, a, b, w)
  {
    forall w: Word
      ensures Spells(g, s, a, b, w) <==> Spells(g', s, a, b, w)
    {
      if Spells(g, s, a, b, w) {
        var p :| Path(g, s, a, b, p) && PathWord(g, p) == w;
        PathKept(g, g', s, s, {}, 0, a, b, p);
      }
      if Spells(g', s, a, b, w) {
        var p :| Path(g', s, a, b, p) && PathWord(g', p) == w;
        PathOld(g, g', s, {}, 0, a, b, p);
      }
    }
  }

  lemma ShapeKept(g: Graph, g': Graph, s: set<nat>, head: nat, tail: nat)
    requires Shape(g, s, head, tail) && Linked(g, g', s, {}, 0)
    ensures Shape(g', s, head, tail)
  {
    forall n | n in s
      ensures n < |g'| && (forall c :: c in g'[n].next ==> c in s) && (n != tail ==> g'[n].next != [])
      ensures WellMade(g'[n])
    {
      assert LinkedAt(g, g', n, {}, 0);
      if n != tail {
        assert g[n].next[0] in g'[n].next;
      }
    }
  }

  lemma TrapsKept(g: Graph, g': Graph, s: set<nat>, head: nat, tail: nat, pending: set<nat>, items: seq<Item>)
    requires BarredByTraps(g, s, head, tail, pending, items) && Linked(g, g', s, {}, 0) && pending <= s
    ensures BarredByTraps(g', s, head, tail, pending, items)
  {
    forall strict | Trapped(strict, items)
      ensures Snared(g', s, head, tail, pending, strict)
    {
      SnareUntouched(g, g', s, head, tail, pending, strict);
    }
  }

  lemma BuildingKept(g: Graph, g': Graph, s: set<nat>, head: nat, tail: nat, pending: int, done: seq<Item>)
    requires Building(g, s, head, tail, pending, done) && Linked(g, g', s, {}, 0)
    ensures Building(g', s, head, tail, pending, done)
  {
    hide Shape, Linked, Spells, Progress, BarredByTraps, Taken, Skipped;
    ShapeKept(g, g', s, head, tail);
    SameWords(g, g', s, head, tail);
    if pending >= 0 {
      SameWords(g, g', s, head, pending);
    }
    ProgressKept(g, g', s, 0, {tail} + Pending(pending), NoNullableLoops(done));
    TrapsKept(g, g', s, head, tail, Pending(pending), done);
  }

  lemma BodyFragmentKept(g: Graph, g': Graph, s: set<nat>, head: nat, tail: nat, body: Body)
    requires BodyFragment(g, s, head, tail, body) && Linked(g, g', s, {}, 0)
    ensures BodyFragment(g', s, head, tail, body)
  {
    hide Shape, Linked, Spells, Progress, BarredByTraps, BodyWord;
    ShapeKept(g, g', s, head, tail);
    SameWords(g, g', s, head, tail);
    ProgressKept(g, g', s, 0, {tail}, NoNullableLoopIn(body));
    if body.Group? {
      TrapsKept(g, g', s, head, tail, {}, body.items);
    }
  }

  // Adding edges.

  function WithEdge(g: Graph, a: nat, c: nat): (r: Graph)
    requires a < |g|
    ensures |r| == |g| && forall n :: 0 <= n < |g| && n != a ==> r[n] == g[n]
  {
    g[a := g[a].(next := g[a].next + [c])]
  }

  lemma LinkedByEdge(g: Graph, a: nat, c: nat, s: set<nat>)
    requires a < |g| && forall n :: n in s ==> n < |g|
    ensures Linked(g, WithEdge(g, a, c), s, {a} * s, c)
  {
    forall n | n in s
      ensures LinkedAt(g, WithEdge(g, a, c), n, {a} * s, c)
    {
    }
  }

  lemma LinkedTwice(g: Graph, g1: Graph, g2: Graph, s: set<nat>, sources1: set<nat>, sources2: set<nat>, c: nat)
    requires Linked(g, g1, s, sources1, c) && Linked(g1, g2, s, sources2, c)
    ensures Linked(g, g2, s, sources1 + sources2, c)
  {
    forall n | n in s
      ensures LinkedAt(g, g2, n, sources1 + sources2, c)
    {
      assert LinkedAt(g, g1, n, sources1, c) && LinkedAt(g1, g2, n, sources2, c);
    }
  }

  lemma LinkedNowhere(g: Graph, g': Graph, s: set<nat>, c: nat)
    requires Linked(g, g', s, {}, c)
    ensures Linked(g, g', s, {}, 0)
  {
    forall n | n in s
      ensures LinkedAt(g, g', n, {}, 0)
    {
      assert LinkedAt(g, g', n, {}, c);
    }
  }

  lemma LinkedNothing(g: Graph, g': Graph, s: set<nat>, c: nat)
    requires forall n :: n in s ==> n < |g| && n < |g'| && g[n] == g'[n]
    ensures Linked(g, g', s, {}, c)
  {
    forall n | n in s
      ensures LinkedAt(g, g', n, {}, c)
    {
    }
  }

  // Single nodes.

  lemma LonePath(g: Graph, n: nat, w: Word)
    requires n < |g| && g[n].next == []
    ensures Spells(g, {n}, n, n, w) <==> w == Label(g[n])
  {
    assert PathWord(g, [n]) == Label(g[n]) + PathWord(g, []);
    assert Path(g, {n}, n, n, [n]);
    if Spells(g, {n}, n, n, w) {
      var p :| Path(g, {n}, n, n, p) && PathWord(g, p) == w;
      assert |p| > 1 ==> EdgeAt(g, p, 0);
      assert p == [n];
    }
  }

  lemma LoneShape(g: Graph, n: nat)
    requires n < |g| && g[n].next == [] && WellMade(g[n])
    ensures Shape(g, {n}, n, n) && Progress(g, {n}, {n}, true)
  {
    var rank := map[n := 0];
    assert RankedAt(g, rank, n);
    assert ProgressBy(g, {n}, {n}, true, rank, {});
  }

  /** A fresh consuming node is the fragment of its atom. */
  lemma AtomFragment(g: Graph, n: nat)
    requires n < |g| && g[n].next == [] && g[n].kind != EndNode && WellMade(g[n])
    ensures BodyFragment(g, {n}, n, n, Single(AtomOf(g[n])))
  {
    LoneShape(g, n);
    hide Spells, Shape, Progress;
    forall w: Word
      ensures Spells(g, {n}, n, n, w) <==> w == [AtomOf(g[n])]
    {
      LonePath(g, n, w);
    }
  }

  /** A fresh end node stands before the first item. */
  lemma StartBuilding(g: Graph, n: nat)
    requires n < |g| && g[n].next == [] && g[n].kind == EndNode
    ensures Building(g, {n}, n, n, -1, [])
  {
    LoneShape(g, n);
    hide Spells, Shape, Progress;
    assert {n} == {n} + Pending(-1);
    forall w: Word
      ensures Spells(g, {n}, n, n, w) <==> Taken(false, [], w)
      ensures !Skipped(false, [], w)
    {
      LonePath(g, n, w);
    }
  }

  lemma GroupFragment(g: Graph, s: set<nat>, head: nat, tail: nat, items: seq<Item>)
    requires Fragment(g, s, head, tail, items)
    ensures BodyFragment(g, s, head, tail, Group(items))
  {
    hide Spells, Shape, Progress, BarredByTraps, Words;
    assert forall w: Word :: BodyWord(false, Group(items), w) <==> Words(false, items, w);
  }

  // The quantifier.

  lemma {:induction false} TimesMatch(g: Graph, s: set<nat>, head: nat, tail: nat, body: Body, w: Word, n: nat)
    requires SpellsBody(g, s, head, tail, body)
    ensures SpellsTimes(g, s, head, tail, w, n) <==> Times(false, body, w, n)
    decreases n
  {
    hide Spells, BodyWord;
    if n > 0 {
      if SpellsTimes(g, s, head, tail, w, n) {
        var x: Word, y: Word :| Joined(w, x, y) && Spells(g, s, head, tail, x) &&
            SpellsTimes(g, s, head, tail, y, n - 1);
        TimesMatch(g, s, head, tail, body, y, n - 1);
      }
      if Times(false, body, w, n) {
        var x: Word, y: Word :| Joined(w, x, y) && BodyWord(false, body, x) && Times(false, body, y, n - 1);
        TimesMatch(g, s, head, tail, body, y, n - 1);
        assert Joined(w, x, y) && Spells(g, s, head, tail, x) && SpellsTimes(g, s, head, tail, y, n - 1);
      }
    }
  }

  lemma UnrepeatedItem(g: Graph, s: set<nat>, head: nat, tail: nat, item: Item)
    requires BodyFragment(g, s, head, tail, item.body) && !item.loop
    ensures ItemFragment(g, s, head, tail, item)
  {
    hide Spells, Shape, Progress, Snared, OnceOrMore, BodyWord, Trapped;
    forall w: Word
      ensures Spells(g, s, head, tail, w) <==> OnceOrMore(false, item, w)
    {
      OnceIs(false, item, w);
    }
    forall strict | TrappedItem(strict, item)
      ensures Snared(g, s, head, tail, {}, strict)
    {
      TrappedInside(strict, item);
    }
  }

  lemma TrappedInside(strict: bool, item: Item)
    requires TrappedItem(strict, item) && !(item.loop && BodyNullable(item))
    ensures item.body.Group? && Trapped(strict, item.body.items)
  {
    assert TrappedBody(strict, item.body);
  }

  lemma RepeatedItemWord(g: Graph, g': Graph, s: set<nat>, head: nat, tail: nat, item: Item, w: Word)
    requires tail in s && SpellsBody(g, s, head, tail, item.body) && item.loop
    requires Linked(g, g', s, {tail}, head)
    ensures Spells(g', s, head, tail, w) <==> OnceOrMore(false, item, w)
  {
    hide Spells, Linked, SpellsBody, SpellsTimes, Times;
    LoopWords(g, g', s, head, tail, w);
    if SpellsRepeatedly(g, s, head, tail, w) {
      var n: nat :| n >= 1 && SpellsTimes(g, s, head, tail, w, n);
      TimesMatch(g, s, head, tail, item.body, w, n);
    }
    if OnceOrMore(false, item, w) {
      var n := Rounds(false, item, w);
      TimesMatch(g, s, head, tail, item.body, w, n);
    }
  }

  lemma RepeatedShape(g: Graph, g': Graph, s: set<nat>, head: nat, tail: nat)
    requires Shape(g, s, head, tail) && Linked(g, g', s, {tail}, head)
    ensures Shape(g', s, head, tail)
  {
    forall n | n in s
      ensures n < |g'| && (forall c :: c in g'[n].next ==> c in s) && (n != tail ==> g'[n].next != [])
      ensures WellMade(g'[n])
    {
      assert LinkedAt(g, g', n, {tail}, head);
      if n != tail {
        assert g[n].next[0] in g'[n].next;
      }
    }
  }

  /** The start-over edge turns a body's words into one or more of them, and a body that can be empty into a trap. */
  lemma RepeatedItem(g: Graph, g': Graph, s: set<nat>, head: nat, tail: nat, item: Item)
    requires BodyFragment(g, s, head, tail, item.body) && item.loop
    requires Linked(g, g', s, {tail}, head)
    ensures ItemFragment(g', s, head, tail, item)
  {
    hide Spells, Linked, Snared, Progress, BodyWord, OnceOrMore, WellMade, Trapped, BodyNullable;
    forall w: Word
      ensures Spells(g', s, head, tail, w) <==> OnceOrMore(false, item, w)
    {
      RepeatedItemWord(g, g', s, head, tail, item, w);
    }
    RepeatedShape(g, g', s, head, tail);
    EmptyOnceIff(item);
    assert BodyNullable(item) <==> Spells(g, s, head, tail, []);
    LoopProgress(g, g', s, head, tail, NoNullableLoopIn(item.body), BodyNullable(item));
    forall strict | TrappedItem(strict, item)
      ensures Snared(g', s, head, tail, {}, strict)
    {
      if BodyNullable(item) {
        SnareByLoop(g, g', s, head, tail, strict);
      } else {
        TrappedInside(strict, item);
        SnareInLoop(g, g', s, head, tail, strict);
      }
    }
  }

  // Linking the next item on.

  lemma TakenAppend(done: seq<Item>, item: Item, w: Word)
    ensures Taken(false, done + [item], w) <==>
            exists u: Word, v: Word :: Joined(w, u, v) && Words(false, done, u) && OnceOrMore(false, item, v)
    ensures Skipped(false, done + [item], w) <==> item.skip && Taken(false, done, w)
    ensures NoNullableLoops(done + [item]) <==> NoNullableLoops(done) && NoNullableLoopInside(item)
  {
    assert Init(done + [item]) == done && Last(done + [item]) == item;
  }

  /** A word that reaches the last item's tail or its skip source. */
  lemma SourceOfWord(g: Graph, s: set<nat>, head: nat, tail: nat, pending: int, done: seq<Item>, u: Word)
    requires SpellsTaken(g, s, head, tail, done) && SpellsSkipped(g, s, head, pending, done)
    ensures Words(false, done, u) <==> exists x: nat :: x in {tail} + Pending(pending) && Spells(g, s, head, x, u)
  {
    hide Taken, Skipped, Spells;
    if Taken(false, done, u) {
      assert tail in {tail} + Pending(pending) && Spells(g, s, head, tail, u);
    } else if Skipped(false, done, u) {
      var x: nat := pending;
      assert x in {tail} + Pending(pending) && Spells(g, s, head, x, u);
    }
  }

  lemma NextWord(g: Graph, g': Graph, s: set<nat>, f: set<nat>, head: nat, tail: nat, pending: int, nh: nat, nt: nat,
                 done: seq<Item>, item: Item, w: Word)
    requires Building(g, s, head, tail, pending, done) && s !! f
    requires Linked(g, g', s, {tail} + Pending(pending), nh)
    requires ItemFragment(g', f, nh, nt, item)
    ensures Spells(g', s + f, head, nt, w) <==> Taken(false, done + [item], w)
  {
    hide Words, OnceOrMore, Spells, Closed, OnlyTailEnds, AllWellMade, Progress, Linked, Taken, Pending;
    hide SpellsTaken, SpellsSkipped, BarredByTraps, BarredByItem;
    var sources := {tail} + Pending(pending);
    ChainWords(g, g', s, f, sources, head, nh, nt, w);
    TakenAppend(done, item, w);
    if Chained(g, g', s, f, sources, head, nh, nt, w) {
      var u: Word, v: Word, x: nat :| Joined(w, u, v) && x in sources && Spells(g, s, head, x, u) &&
          Spells(g', f, nh, nt, v);
      SourceOfWord(g, s, head, tail, pending, done, u);
      assert Joined(w, u, v) && Words(false, done, u) && OnceOrMore(false, item, v);
    }
    if Taken(false, done + [item], w) {
      var u: Word, v: Word :| Joined(w, u, v) && Words(false, done, u) && OnceOrMore(false, item, v);
      SourceOfWord(g, s, head, tail, pending, done, u);
      var x: nat :| x in sources && Spells(g, s, head, x, u);
      assert Joined(w, u, v) && x in sources && Spells(g, s, head, x, u) && Spells(g', f, nh, nt, v);
    }
  }

  lemma NextSkipped(g: Graph, g': Graph, s: set<nat>, f: set<nat>, head: nat, tail: nat, sources: set<nat>, nh: nat,
                    done: seq<Item>, item: Item)
    requires s !! f && Closed(g, s) && Closed(g', f) && Linked(g, g', s, sources, nh) && nh in f && head in s &&
             tail in s
    requires SpellsTaken(g, s, head, tail, done)
    ensures SpellsSkipped(g', s + f, head, if item.skip then tail else -1, done + [item])
  {
    hide Spells, Closed, Linked, Taken, Skipped;
    forall w: Word
      ensures Skipped(false, done + [item], w) <==> item.skip && Spells(g', s + f, head, tail, w)
    {
      TakenAppend(done, item, w);
      OldWords(g, g', s, f, sources, nh, head, tail, w);
    }
  }

  lemma LinkedShape(g: Graph, g': Graph, s: set<nat>, f: set<nat>, head: nat, tail: nat, sources: set<nat>, nh: nat,
                    nt: nat)
    requires Shape(g, s, head, tail) && s !! f && tail in sources
    requires Linked(g, g', s, sources, nh)
    requires Shape(g', f, nh, nt)
    ensures Shape(g', s + f, head, nt)
  {
    forall n | n in s + f
      ensures n < |g'| && (forall c :: c in g'[n].next ==> c in s + f) && (n != nt ==> g'[n].next != [])
      ensures WellMade(g'[n])
    {
      if n in s {
        assert LinkedAt(g, g', n, sources, nh);
        if n == tail {
          assert nh in g'[n].next;
        } else {
          assert g[n].next[0] in g'[n].next;
        }
      }
    }
  }

  lemma TrappedAppend(done: seq<Item>, item: Item, strict: bool)
    requires Trapped(strict, done + [item])
    ensures Trapped(strict, done) || (Passable(strict, done) && TrappedItem(strict || item.skip, item))
  {
    assert Init(done + [item]) == done && Last(done + [item]) == item;
  }

  /** A trap among the items so far, or in the new one, keeps barring the way. */
  lemma NextSnared(g: Graph, g': Graph, s: set<nat>, f: set<nat>, head: nat, tail: nat, pending: int, nh: nat, nt: nat,
                   done: seq<Item>, item: Item, strict: bool)
    requires Building(g, s, head, tail, pending, done) && s !! f
    requires Linked(g, g', s, {tail} + Pending(pending), nh)
    requires ItemFragment(g', f, nh, nt, item)
    requires Trapped(strict, done + [item])
    ensures Snared(g', s + f, head, nt, if item.skip then {tail} else {}, strict)
  {
    TrappedAppend(done, item, strict);
    hide Words, Spells, Linked, Snared, Progress, Trapped, TrappedItem, Passing, Closed, SpellsTaken, SpellsSkipped;
    if Trapped(strict, done) {
      SnareLinked(g, g', s, f, head, tail, Pending(pending), strict, nh, nt, if item.skip then {tail} else {});
    } else {
      var u: Word :| Words(false, done, u) && Passing(strict, u);
      SourceOfWord(g, s, head, tail, pending, done, u);
      var x: nat :| x in {tail} + Pending(pending) && Spells(g, s, head, x, u);
      assert ReachedBy(g, s, head, x, strict);
      SnareFollows(g, g', s, f, head, tail, Pending(pending), strict, nh, nt, item.skip);
    }
  }

  /** One more item, linked from the tail and from the pending skip source; if it can be skipped, the old tail
      becomes the pending source. */
  lemma BuildNext(g: Graph, g': Graph, s: set<nat>, f: set<nat>, head: nat, tail: nat, pending: int, nh: nat, nt: nat,
                  done: seq<Item>, item: Item)
    requires Building(g, s, head, tail, pending, done) && s !! f
    requires Linked(g, g', s, {tail} + Pending(pending), nh)
    requires ItemFragment(g', f, nh, nt, item)
    ensures Building(g', s + f, head, nt, if item.skip then tail else -1, done + [item])
  {
    hide Spells, Linked, Taken, Skipped, Snared, Progress, Trapped, NoNullableLoops, NoNullableLoopInside;
    hide Closed, OnlyTailEnds, AllWellMade;
    var sources, pending' := {tail} + Pending(pending), if item.skip then tail as int else -1;
    forall w: Word
      ensures Spells(g', s + f, head, nt, w) <==> Taken(false, done + [item], w)
    {
      NextWord(g, g', s, f, head, tail, pending, nh, nt, done, item, w);
    }
    NextSkipped(g, g', s, f, head, tail, sources, nh, done, item);
    LinkedShape(g, g', s, f, head, tail, sources, nh, nt);
    ChainProgress(g, g', s, f, sources, nh, {nt}, {nt} + Pending(pending'),
                  NoNullableLoops(done), NoNullableLoopInside(item));
    TakenAppend(done, item, []);
    forall strict | Trapped(strict, done + [item])
      ensures Snared(g', s + f, head, nt, Pending(pending'), strict)
    {
      NextSnared(g, g', s, f, head, tail, pending, nh, nt, done, item, strict);
    }
  }

  lemma OnlyTaken(item: Item, w: Word)
    ensures Taken(false, [item], w) <==> OnceOrMore(false, item, w)
    ensures Skipped(false, [item], w) ==> item.skip
    ensures NoNullableLoops([item]) <==> NoNullableLoopInside(item)
  {
    TakenAppend([], item, w);
    assert [] + [item] == [item];
    hide OnceOrMore;
    assert Words(false, [], []);
    assert Joined(w, [], w);
    assert forall u: Word, v: Word :: Joined(w, u, v) && Words(false, [], u) ==> v == w;
  }

  /** All edges of one item at once: the quantifier's inside f, the links from s to its head. */
  lemma BuildItem(g: Graph, g': Graph, s: set<nat>, f: set<nat>, head: nat, tail: nat, pending: int, nh: nat, nt: nat,
                  done: seq<Item>, item: Item)
    requires Building(g, s, head, tail, pending, done) && s !! f
    requires BodyFragment(g, f, nh, nt, item.body)
    requires Linked(g, g', s, {tail} + Pending(pending), nh)
    requires Linked(g, g', f, if item.loop then {nt} else {}, nh)
    ensures Building(g', s + f, head, nt, if item.skip then tail else -1, done + [item])
  {
    hide Building, BodyFragment, ItemFragment, Linked;
    ItemBuilt(g, g', f, nh, nt, item);
    BuildNext(g, g', s, f, head, tail, pending, nh, nt, done, item);
  }

  lemma ItemBuilt(g: Graph, g': Graph, f: set<nat>, nh: nat, nt: nat, item: Item)
    requires BodyFragment(g, f, nh, nt, item.body)
    requires Linked(g, g', f, if item.loop then {nt} else {}, nh)
    ensures ItemFragment(g', f, nh, nt, item)
  {
    hide BodyFragment, ItemFragment, Linked;
    if item.loop {
      RepeatedItem(g, g', f, nh, nt, item);
    } else {
      LinkedNowhere(g, g', f, nh);
      BodyFragmentKept(g, g', f, nh, nt, item.body);
      UnrepeatedItem(g', f, nh, nt, item);
    }
  }

  lemma BuildFirstItem(g: Graph, g': Graph, f: set<nat>, nh: nat, nt: nat, item: Item)
    requires BodyFragment(g, f, nh, nt, item.body) && !item.skip
    requires Linked(g, g', f, if item.loop then {nt} else {}, nh)
    ensures Building(g', f, nh, nt, -1, [item])
  {
    hide Building, BodyFragment, ItemFragment, Linked;
    ItemBuilt(g, g', f, nh, nt, item);
    BuildFirst(g', f, nh, nt, item);
  }

  /** The first item, when it cannot be skipped, is the whole graph so far. */
  lemma BuildFirst(g: Graph, s: set<nat>, nh: nat, nt: nat, item: Item)
    requires ItemFragment(g, s, nh, nt, item) && !item.skip
    ensures Building(g, s, nh, nt, -1, [item])
  {
    hide Taken, Skipped, OnceOrMore, Spells, NoNullableLoops, NoNullableLoopInside, Progress, Shape, Snared, Trapped,
        TrappedItem;
    forall w: Word
      ensures Spells(g, s, nh, nt, w) <==> Taken(false, [item], w)
      ensures !Skipped(false, [item], w)
    {
      OnlyTaken(item, w);
    }
    OnlyTaken(item, []);
    assert {nt} == {nt} + Pending(-1);
    forall strict | Trapped(strict, [item])
      ensures Snared(g, s, nh, nt, {}, strict)
    {
      assert [] + [item] == [item];
      TrappedAppend([], item, strict);
      NothingTrapped(strict);
    }
  }

  lemma NothingTrapped(strict: bool)
    ensures !Trapped(strict, [])
  {
  }

  // The end of the list.

  /** After the last item, when nothing is pending. */
  lemma FinishPlain(g: Graph, s: set<nat>, head: nat, tail: nat, done: seq<Item>)
    requires Building(g, s, head, tail, -1, done)
    ensures Fragment(g, s, head, tail, done)
  {
    hide Taken, Skipped, Spells, Progress, Shape, BarredByTraps;
    assert {tail} == {tail} + Pending(-1);
    forall w: Word
      ensures Spells(g, s, head, tail, w) <==> Words(false, done, w)
    {
      assert !Skipped(false, done, w);
    }
  }

  /** A new end node is reached with the words that reach one of the sources it is linked to. */
  lemma EndWords(g: Graph, g': Graph, s: set<nat>, end: nat, head: nat, sources: set<nat>, w: Word)
    requires end !in s && Closed(g, s) && head in s && sources <= s
    requires Linked(g, g', s, sources, end)
    requires end < |g'| && g'[end].kind == EndNode && g'[end].next == []
    ensures Spells(g', s + {end}, head, end, w) <==> exists x: nat :: x in sources && Spells(g, s, head, x, w)
  {
    hide Spells, Linked;
    ChainWords(g, g', s, {end}, sources, head, end, end, w);
    LonePath(g', end, []);
    if Chained(g, g', s, {end}, sources, head, end, end, w) {
      var u: Word, v: Word, x: nat :| Joined(w, u, v) && x in sources && Spells(g, s, head, x, u) &&
          Spells(g', {end}, end, end, v);
      LonePath(g', end, v);
      assert u == w;
    }
    if x: nat :| x in sources && Spells(g, s, head, x, w) {
      assert Joined(w, w, []) && x in sources && Spells(g, s, head, x, w) && Spells(g', {end}, end, end, []);
    }
  }

  lemma EndTraps(g: Graph, g': Graph, s: set<nat>, end: nat, head: nat, tail: nat, pending: set<nat>, items: seq<Item>)
    requires Shape(g, s, head, tail) && BarredByTraps(g, s, head, tail, pending, items) && end !in s && pending <= s
    requires Linked(g, g', s, {tail} + pending, end)
    requires end < |g'| && g'[end].kind == EndNode && g'[end].next == []
    ensures BarredByTraps(g', s + {end}, head, end, {}, items)
  {
    hide Linked, Snared, Trapped;
    forall strict | Trapped(strict, items)
      ensures Snared(g', s + {end}, head, end, {}, strict)
    {
      SnareLinked(g, g', s, {end}, head, tail, pending, strict, end, end, {});
    }
  }

  lemma EndProgress(g: Graph, g': Graph, s: set<nat>, end: nat, head: nat, tail: nat, sources: set<nat>, ok: bool)
    requires Shape(g, s, head, tail) && Progress(g, s, sources, ok) && end !in s && tail in sources
    requires Linked(g, g', s, sources, end)
    requires end < |g'| && g'[end].kind == EndNode && g'[end].next == []
    ensures Shape(g', s + {end}, head, end) && Progress(g', s + {end}, {end}, ok)
  {
    LoneShape(g', end);
    hide Linked, Progress;
    LinkedShape(g, g', s, {end}, head, tail, sources, end, end);
    ChainProgress(g, g', s, {end}, sources, end, {end}, {end}, ok, true);
  }

  /** After the last item, when it can be skipped: tail and pending source both lead to a new end node. */
  lemma FinishPending(g: Graph, g': Graph, s: set<nat>, end: nat, head: nat, tail: nat, pending: int, done: seq<Item>)
    requires Building(g, s, head, tail, pending, done) && end !in s
    requires Linked(g, g', s, {tail} + Pending(pending), end)
    requires end < |g'| && g'[end].kind == EndNode && g'[end].next == []
    ensures Fragment(g', s + {end}, head, end, done)
  {
    hide Words, Linked, Spells, Progress, BarredByTraps, SpellsTaken, SpellsSkipped;
    var sources := {tail} + Pending(pending);
    forall w: Word
      ensures Spells(g', s + {end}, head, end, w) <==> Words(false, done, w)
    {
      EndWords(g, g', s, end, head, sources, w);
      SourceOfWord(g, s, head, tail, pending, done, w);
    }
    EndProgress(g, g', s, end, head, tail, sources, NoNullableLoops(done));
    EndTraps(g, g', s, end, head, tail, Pending(pending), done);
  }

  /** A tail that loops gets an end node of its own, so that a path can stop there. */
  lemma FinishLooping(g: Graph, g': Graph, s: set<nat>, end: nat, head: nat, tail: nat, items: seq<Item>)
    requires Fragment(g, s, head, tail, items) && end !in s
    requires Linked(g, g', s, {tail}, end)
    requires end < |g'| && g'[end].kind == EndNode && g'[end].next == []
    ensures Fragment(g', s + {end}, head, end, items)
  {
    hide Words, Linked, Spells, Progress, BarredByTraps;
    forall w: Word
      ensures Spells(g', s + {end}, head, end, w) <==> Words(false, items, w)
    {
      EndWords(g, g', s, end, head, {tail}, w);
    }
    EndProgress(g, g', s, end, head, tail, {tail}, NoNullableLoops(items));
    assert {tail} == {tail} + {};
    EndTraps(g, g', s, end, head, tail, {}, items);
  }
}
