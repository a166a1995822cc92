/** How much an optional or repeated character takes: the order in which `parsePat` of src/Pattern.cpp gives a node its
    children, seen in what the matcher finds. */
module PatternGreedy {
  import opened PatternLanguage
  import opened PatternAtoms
  import opened PatternGraph
  import opened PatternLayout
  import opened Pattern
  import opened Matcher
  import opened PatternFragment
  import opened MatcherWords
  import opened PatternExamples

  // The graph of one item.

  /** The node of the atom, the children it gets, and an end node; in front of them an end node that skips, if there is
      one. */
  function Shape(a: Atom, skip: bool, loop: bool): seq<Cell> {
    if skip then [Cell([a], if loop then [0, 2] else [2]), Cell([], [0, 2]), END]
    else if loop then [Cell([a], [0, 1]), END]
    else [Cell([a], [])]
  }

  lemma LayAtom(a: Atom, skip: bool, loop: bool)
    ensures LayPattern([Item(Single(a), skip, loop)]).cells == Shape(a, skip, loop)
    ensures LayPattern([Item(Single(a), skip, loop)]).head == if skip then 1 else 0
  {
    var item, first := Item(Single(a), skip, loop), Cell([a], []);
    LayNothing([]);
    LayItemsMore([], [], item);
    assert [] + [item] == [item] && [] + [first] == [first];
    LinkAtom(first, skip, loop);
  }

  lemma LinkAtom(first: Cell, skip: bool, loop: bool)
    requires first.next == []
    ensures var end := EndLoop(Close(LinkOn(Laid([first], -1, -1, -1), 0, 0, skip, loop)));
            && end.head == (if skip then 1 else 0)
            && (skip ==> end.cells == [Cell(first.adds, if loop then [0, 2] else [2]), Cell([], [0, 2]), END])
            && (!skip ==> end.cells == if loop then [Cell(first.adds, [0, 1]), END] else [first])
  {
    if skip {
      var one := Cell(first.adds, [0]);
      assert [first, END] == [first] + [END];
      JointGives([first, END], 0, 0, [0]);
      assert Joint([first, END], 0, 0) == [one, END];
      var cells := if loop then [one, END] else [first, END];
      assert LinkOn(Laid([first], -1, -1, -1), 0, 0, true, loop) == Laid(Joint(cells, 1, 0), 1, 0, 1);
      JointGives(cells, 1, 0, [0]);
      var linked := [cells[0], Cell([], [0])];
      assert Joint(cells, 1, 0) == linked;
      JointGives(linked + [END], 0, 2, cells[0].next + [2]);
      JointGives(Joint(linked + [END], 0, 2), 1, 2, [0, 2]);
      var last := [Cell(first.adds, if loop then [0, 2] else [2]), Cell([], [0, 2]), END];
      assert cells[0].next + [2] == last[0].next && cells[0].adds == first.adds;
      assert Joint(Joint(linked + [END], 0, 2), 1, 2) == last;
      assert Close(Laid(linked, 1, 0, 1)) == Laid(last, 1, 2, -1);
    } else if loop {
      JointGives([first], 0, 0, [0]);
      var linked := [Cell(first.adds, [0])];
      assert Joint([first], 0, 0) == linked;
      JointGives(linked + [END], 0, 1, [0, 1]);
      assert Joint(linked + [END], 0, 1) == [Cell(first.adds, [0, 1]), END];
    }
  }

  // What is found in it.

  ghost predicate IsEnd(v: Setting, e: nat) {
    v.Valid() && e in v.nodes && e < |v.g| && v.g[e].kind == EndNode && v.g[e].next == []
  }

  /** Node 0 tests the atom, starts over if it loops, and its last child, if it has one, is an end. */
  ghost predicate Tests(v: Setting, a: Atom, loop: bool) {
    && v.Valid() && 0 in v.nodes && 0 < |v.g| && v.g[0].kind != EndNode && AtomOf(v.g[0]) == a && WellMade(v.g[0])
    && var next := v.Next(0);
       if loop then |next| == 2 && next[0] == 0 && IsEnd(v, next[1])
       else next == [] || (|next| == 1 && IsEnd(v, next[0]))
  }

  /** How many characters from `it` on the atom accepts. */
  function Accepted(a: Atom, text: string, it: nat): (k: nat)
    requires it <= |text|
    ensures it + k <= |text|
    decreases |text| - it
  {
    if it == |text| || !Accepts(a, text[it]) then 0 else 1 + Accepted(a, text, it + 1)
  }

  lemma {:induction false} AcceptedAre(a: Atom, text: string, it: nat)
    requires it <= |text|
    ensures var k := Accepted(a, text, it);
            && (forall i :: it <= i < it + k ==> Accepts(a, text[i]))
            && (it + k < |text| ==> !Accepts(a, text[it + k]))
    decreases |text| - it
  {
    hide Accepts;
    if it < |text| && Accepts(a, text[it]) {
      AcceptedAre(a, text, it + 1);
    }
  }

  lemma EndFinds(v: Setting, e: nat, it: nat, len: nat, depth: nat)
    requires IsEnd(v, e) && it + len <= |v.text| && depth > 0
    ensures Search(v, e, it, len, depth) == Found(it)
  {
  }

  lemma TestSteps(v: Setting, a: Atom, loop: bool, it: nat)
    requires Tests(v, a, loop) && NeverLags(a) && it <= |v.text|
    ensures v.Step(0, it, |v.text| - it)
         == if Accepted(a, v.text, it) == 0 then Fail else Go(it + 1, |v.text| - it - 1)
  {
    VisitIsAtomStep(v.g[0], v.text, it, |v.text| - it);
  }

  lemma {:induction false} TestFinds(v: Setting, a: Atom, loop: bool, it: nat)
    requires Tests(v, a, loop) && NeverLags(a) && it <= |v.text|
    ensures var k, len := Accepted(a, v.text, it), |v.text| - it;
            Search(v, 0, it, len, len + 2)
            == if k == 0 then Failed else Found(it + if loop then k else 1)
    decreases |v.text| - it
  {
    hide Visit, NeverLags;
    var len := |v.text| - it;
    TestSteps(v, a, loop, it);
    if Accepted(a, v.text, it) > 0 {
      var next := v.Next(0);
      if loop {
        TestFinds(v, a, loop, it + 1);
        EndFinds(v, next[1], it + 1, len - 1, len + 1);
        assert SearchFrom(v, 0, 1, it + 1, len - 1, len + 1) == Found(it + 1);
      } else if next != [] {
        EndFinds(v, next[0], it + 1, len - 1, len + 1);
      }
    }
  }

  lemma CellAt(g: Graph, n: nat, c: Cell)
    requires n < |g| && Cells(g)[n] == c
    ensures Label(g[n]) == c.adds && g[n].next == c.next && (c.adds == [] <==> g[n].kind == EndNode)
    ensures forall a :: c.adds == [a] ==> AtomOf(g[n]) == a
  {
  }

  /** The graph of one item is one that tests its atom. */
  lemma ShapeTests(v: Setting, a: Atom, skip: bool, loop: bool)
    requires v.Valid() && AllWellMade(v.g, v.nodes) && Cells(v.g) == Shape(a, skip, loop)
    requires (if skip then 1 else 0) in v.nodes
    ensures Tests(v, a, loop)
    ensures skip ==> 1 < |v.g| && v.g[1].kind == EndNode && v.Next(1) == [0, 2] && IsEnd(v, 2)
  {
    hide Cells, Label, AtomOf;
    CellAt(v.g, 0, Shape(a, skip, loop)[0]);
    if skip {
      CellAt(v.g, 1, Cell([], [0, 2]));
      CellAt(v.g, 2, END);
      assert v.Next(1)[0] in v.nodes && v.Next(1)[1] in v.nodes;
    } else if loop {
      CellAt(v.g, 1, END);
      assert v.Next(0)[1] in v.nodes;
    }
  }

  /** Where the pattern of one item ends, -1 if it does not match. */
  function Taken(a: Atom, skip: bool, loop: bool, text: string, p: nat): int
    requires p <= |text|
  {
    var k := Accepted(a, text, p);
    if k == 0 && !skip then -1 else if loop || k == 0 then p + k else p + 1
  }

  lemma ItemFinds(v: Setting, a: Atom, skip: bool, loop: bool, p: nat)
    requires Tests(v, a, loop) && NeverLags(a) && p <= |v.text|
    requires skip ==> 1 in v.nodes && 1 < |v.g| && v.g[1].kind == EndNode && v.Next(1) == [0, 2] && IsEnd(v, 2)
    ensures var root: nat := if skip then 1 else 0;
            Search(v, root, p, |v.text| - p, |v.text| - p + 3)
            == var r := Taken(a, skip, loop, v.text, p); if r < 0 then Failed else Found(r)
  {
    hide NeverLags, AtomOf, WellMade;
    var len := |v.text| - p;
    TestFinds(v, a, loop, p);
    if skip {
      EndFinds(v, 2, p, len, len + 2);
      assert SearchFrom(v, 1, 1, p, len, len + 2) == Found(p);
      assert v.Step(1, p, len) == Go(p, len);
    } else {
      Deeper(v, 0, p, len, len + 2, len + 3);
    }
  }

  lemma ItemMatches(v: Setting, root: nat, leaf: nat, a: Atom, skip: bool, loop: bool, p: nat)
    requires NeverLags(a) && p <= |v.text|
    requires CompiledAs(v.g, v.nodes, root, leaf, [Item(Single(a), skip, loop)])
    requires var laid := LayPattern([Item(Single(a), skip, loop)]); Cells(v.g) == laid.cells && root == laid.head
    ensures v.Valid() && root in v.nodes && Ends(v, StartAt(v, root, p))
    ensures MatchAt(v, root, p) == Taken(a, skip, loop, v.text, p)
  {
    hide CompiledAs, LayPattern, Cells, Accepts, NeverLags, Tests, IsEnd, Ends, Search, Taken, Shape;
    LayAtom(a, skip, loop);
    CompiledParts(v, root, leaf, [Item(Single(a), skip, loop)], p, |v.text| - p);
    ShapeTests(v, a, skip, loop);
    ItemFinds(v, a, skip, loop, p);
    var m := SearchRuns(v, root, p, |v.text| - p, |v.text| - p + 3, []);
    FinalIs(v, StartAt(v, root, p), m);
    TakenBounds(a, skip, loop, v.text, p);
  }

  lemma TakenBounds(a: Atom, skip: bool, loop: bool, text: string, p: nat)
    requires p <= |text|
    ensures Taken(a, skip, loop, text, p) >= -1
  {
  }

  /** A single character, or class of them, with or without a quantifier: an optional one is taken if it is there, and
      a repeated one as often as it can be, `x-` no less than `x*`. */
  lemma TakesAll(v: Setting, root: nat, leaf: nat, a: Atom, skip: bool, loop: bool, p: nat)
    requires NeverLags(a) && p <= |v.text|
    requires CompiledAs(v.g, v.nodes, root, leaf, [Item(Single(a), skip, loop)])
    requires var laid := LayPattern([Item(Single(a), skip, loop)]); Cells(v.g) == laid.cells && root == laid.head
    ensures v.Valid() && root in v.nodes && Ends(v, StartAt(v, root, p))
    ensures var r := MatchAt(v, root, p);
            && (r < 0 <==> !skip && (p == |v.text| || !Accepts(a, v.text[p])))
            && (r >= 0 ==>
                  && p <= r <= |v.text| && (forall i :: p <= i < r ==> Accepts(a, v.text[i]))
                  && (loop || r == p ==> r == |v.text| || !Accepts(a, v.text[r]))
                  && (!loop ==> r <= p + 1))
  {
    hide CompiledAs, LayPattern, Cells, Accepts, NeverLags, Ends, MatchAt;
    ItemMatches(v, root, leaf, a, skip, loop, p);
    AcceptedAre(a, v.text, p);
  }
}
