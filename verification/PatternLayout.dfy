/** Where `parsePat` of `src/Pattern.cpp` puts its nodes and in which order a node gets its children: the graph as a
    function of the syntax tree. Only the order of equal words and of the search depends on it. */
module PatternLayout {
  import opened PatternLanguage
  import opened PatternGraph

  /** A node without the kind of test it makes: the word it adds to a path, and its children. */
  datatype Cell = Cell(adds: Word, next: seq<nat>)

  /** The graph so far, and the three pointers of the parser, -1 when null. */
  datatype Laid = Laid(cells: seq<Cell>, head: int, tail: int, pending: int)

  const END := Cell([], [])

  function Cells(g: Graph): (cells: seq<Cell>)
    ensures |cells| == |g|
    ensures forall n :: 0 <= n < |g| ==> cells[n] == Cell(Label(g[n]), g[n].next)
  {
    seq(|g|, n requires 0 <= n < |g| => Cell(Label(g[n]), g[n].next))
  }

  function Joint(cells: seq<Cell>, a: int, c: nat): (r: seq<Cell>)
    ensures |r| == |cells|
  {
    if 0 <= a < |cells| then cells[a := Cell(cells[a].adds, cells[a].next + [c])] else cells
  }

  function NewEnd(l: Laid): Laid {
    Laid(l.cells + [END], |l.cells|, |l.cells|, l.pending)
  }

  /** The body from nh to nt becomes the next item: pending skip edge, start-over edge, edge from the tail. */
  function LinkOn(l: Laid, nh: nat, nt: int, skip: bool, loop: bool): Laid {
    var l1 := if l.pending < 0 then l else l.(cells := Joint(l.cells, l.pending, nh));
    var l2 := if skip && l1.tail < 0 then NewEnd(l1) else l1;
    var cells := if loop then Joint(l2.cells, nt, nh) else l2.cells;
    var pending := if skip then l2.tail else -1;
    if l2.head < 0 then Laid(cells, nh, nt, pending) else Laid(Joint(cells, l2.tail, nh), l2.head, nt, pending)
  }

  /** A pending skip source needs an end node to skip to. */
  function Close(l: Laid): Laid {
    if l.pending < 0 then l
    else Laid(Joint(Joint(l.cells + [END], l.tail, |l.cells|), l.pending, |l.cells|), l.head, |l.cells|, -1)
  }

  function LayBody(base: seq<Cell>, body: Body): Laid
    decreases body
  {
    match body
    case Single(a) => Laid(base + [Cell([a], [])], |base|, |base|, -1)
    case Group(items) => Close(LayItems(base, items))
  }

  function LayItems(base: seq<Cell>, items: seq<Item>): Laid
    decreases items
  {
    if items == [] then Laid(base, -1, -1, -1)
    else
      var l := LayItems(base, Init(items));
      assert Last(items).body < Last(items);
      var b := LayBody(l.cells, Last(items).body);
      if b.head < 0 then b else LinkOn(l.(cells := b.cells), b.head, b.tail, Last(items).skip, Last(items).loop)
  }

  /** A tail that loops gets an end node behind it. */
  function EndLoop(l: Laid): Laid {
    if 0 <= l.tail < |l.cells| && l.cells[l.tail].next != []
    then Laid(Joint(l.cells + [END], l.tail, |l.cells|), l.head, |l.cells|, -1)
    else l
  }

  function LayPattern(items: seq<Item>): Laid {
    EndLoop(Close(LayItems([], items)))
  }

  lemma EndLoopHead(l: Laid)
    ensures EndLoop(l).head == l.head
  {
  }

  lemma LayItemsMore(base: seq<Cell>, done: seq<Item>, item: Item)
    ensures var l := LayItems(base, done); var b := LayBody(l.cells, item.body);
            LayItems(base, done + [item])
            == if b.head < 0 then b else LinkOn(l.(cells := b.cells), b.head, b.tail, item.skip, item.loop)
  {
    assert Init(done + [item]) == done && Last(done + [item]) == item;
  }

  lemma LayNothing(base: seq<Cell>)
    ensures LayItems(base, []) == Laid(base, -1, -1, -1)
  {
  }

  lemma CellsMore(g: Graph, n: Node)
    ensures Cells(g + [n]) == Cells(g) + [Cell(Label(n), n.next)]
  {
  }
}
