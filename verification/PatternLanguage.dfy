/** The syntax trees of `src/Pattern.cpp` patterns, and two languages for each: the one a reader of the
    pattern expects, and the one the compiled graph has. Words are sequences of atoms. */
module PatternLanguage {

  datatype Bounds = Bounds(cmin: char, cmax: char)

  function Singletons(chars: string): seq<Bounds> {
    seq(|chars|, i requires 0 <= i < |chars| => Bounds(chars[i], chars[i]))
  }

  /** What one consuming node stands for. */
  datatype Atom = Any | OneOf(bounds: seq<Bounds>, inverted: bool)

  type Word = seq<Atom>

  /** `?` sets skip, `+` sets loop, `*` and `-` set both. */
  datatype Item = Item(body: Body, skip: bool, loop: bool)
  datatype Body = Single(atom: Atom) | Group(items: seq<Item>)

  function Init(items: seq<Item>): seq<Item>
    requires items != []
  {
    items[..|items| - 1]
  }

  function Last(items: seq<Item>): Item
    requires items != []
  {
    items[|items| - 1]
  }

  // With `free`, any items marked skip may be left out: the expected language.
  // Without it, an item may be left out only right after one that was not: the compiled graph,
  // where a single pending skip source is kept.

  ghost predicate Words(free: bool, items: seq<Item>, w: Word)
    decreases items, 2
  {
    Taken(free, items, w) || Skipped(free, items, w)
  }

  /** Words in which the last item occurs. */
  ghost predicate Taken(free: bool, items: seq<Item>, w: Word)
    decreases items, 0
  {
    if items == [] then w == []
    else exists u: Word, v: Word :: Joined(w, u, v) && Words(free, Init(items), u) && OnceOrMore(free, Last(items), v)
  }

  /** Words in which the last item is left out. */
  ghost predicate Skipped(free: bool, items: seq<Item>, w: Word)
    decreases items, 1
  {
    items != [] && Last(items).skip && (Taken(free, Init(items), w) || (free && Skipped(free, Init(items), w)))
  }

  ghost predicate OnceOrMore(free: bool, item: Item, v: Word)
    decreases item
  {
    exists n: nat :: n >= 1 && (n == 1 || item.loop) && Times(free, item.body, v, n)
  }

  ghost predicate Times(free: bool, body: Body, v: Word, n: nat)
    decreases body, n
  {
    if n == 0 then v == []
    else exists x: Word, y: Word :: Joined(v, x, y) && BodyWord(free, body, x) && Times(free, body, y, n - 1)
  }

  ghost predicate BodyWord(free: bool, body: Body, v: Word)
    decreases body, 0
  {
    match body
    case Single(a) => v == [a]
    case Group(items) => Words(free, items, v)
  }

  ghost predicate Joined(w: Word, u: Word, v: Word) {
    w == u + v
  }

  /** Whether the compiled language of an item list has the empty word, with the last item in it or left out. */
  predicate EmptyTaken(items: seq<Item>)
    decreases items, 0
  {
    items == [] || ((EmptyTaken(Init(items)) || EmptySkipped(Init(items))) && BodyNullable(Last(items)))
  }

  predicate EmptySkipped(items: seq<Item>)
    decreases items, 1
  {
    items != [] && Last(items).skip && EmptyTaken(Init(items))
  }

  predicate BodyNullable(item: Item)
    decreases item
  {
    item.body.Group? && (EmptyTaken(item.body.items) || EmptySkipped(item.body.items))
  }

  /** Both can be left out, and neither can be empty instead. */
  predicate Clash(first: Item, second: Item) {
    first.skip && second.skip && !BodyNullable(first) && !BodyNullable(second)
  }

  predicate LastTwoClash(items: seq<Item>) {
    |items| >= 2 && Clash(Last(Init(items)), Last(items))
  }

  /** No two neighbouring items clash, in the list or inside a group, at any depth. */
  predicate NoClash(items: seq<Item>) {
    items == [] || (NoClash(Init(items)) && !LastTwoClash(items) && NoClashInside(Last(items)))
  }

  predicate NoClashInside(item: Item) {
    item.body.Group? ==> NoClash(item.body.items)
  }

  /** No two neighbouring items clash, in the list or inside a group that has to occur. */
  predicate NoOpenClash(items: seq<Item>) {
    items == [] || (NoOpenClash(Init(items)) && !LastTwoClash(items) && NoOpenClashInside(Last(items)))
  }

  predicate NoOpenClashInside(item: Item) {
    item.body.Group? && !item.skip ==> NoOpenClash(item.body.items)
  }

  /** The groups that can be left out have no clash inside. */
  predicate OptionalFine(items: seq<Item>) {
    items == [] || (OptionalFine(Init(items)) && OptionalFineInside(Last(items)))
  }

  predicate OptionalFineInside(item: Item) {
    item.body.Group? ==> if item.skip then NoClash(item.body.items) else OptionalFine(item.body.items)
  }

  // The compiled language against the expected one.

  /** Nothing unexpected is ever spelled. */
  lemma {:induction false} CompiledWithinExpected(items: seq<Item>, w: Word)
    requires Words(false, items, w)
    ensures Words(true, items, w)
    ensures Taken(false, items, w) ==> Taken(true, items, w)
    decreases items, 1
  {
    if items == [] {
      assert Taken(false, items, w) && w == [];
    } else {
      if Taken(false, items, w) {
        var u: Word, v: Word :| Joined(w, u, v) && Words(false, Init(items), u) && OnceOrMore(false, Last(items), v);
        CompiledWithinExpected(Init(items), u);
        OnceWithinExpected(Last(items), v);
        assert Joined(w, u, v) && Words(true, Init(items), u) && OnceOrMore(true, Last(items), v);
        assert Taken(true, items, w);
      }
      if Skipped(false, items, w) {
        assert Taken(false, Init(items), w);
        CompiledWithinExpected(Init(items), w);
        assert Skipped(true, items, w);
      }
    }
  }

  lemma {:induction false} OnceWithinExpected(item: Item, v: Word)
    requires OnceOrMore(false, item, v)
    ensures OnceOrMore(true, item, v)
    decreases item
  {
    var n := Rounds(false, item, v);
    TimesWithinExpected(item.body, v, n);
  }

  lemma {:induction false} TimesWithinExpected(body: Body, v: Word, n: nat)
    requires Times(false, body, v, n)
    ensures Times(true, body, v, n)
    decreases body, n
  {
    if n > 0 {
      var x: Word, y: Word :| Joined(v, x, y) && BodyWord(false, body, x) && Times(false, body, y, n - 1);
      TimesWithinExpected(body, y, n - 1);
      if body.Group? {
        CompiledWithinExpected(body.items, x);
      }
      assert Joined(v, x, y) && BodyWord(true, body, x) && Times(true, body, y, n - 1);
    }
  }

  /** Where no neighbours clash nothing expected is lost: of two neighbours left out, one may be taken empty. */
  lemma {:induction false} ExpectedWithinCompiled(items: seq<Item>, w: Word)
    requires NoClash(items) && Words(true, items, w)
    ensures Words(false, items, w)
    ensures Taken(true, items, w) ==> Taken(false, items, w)
    decreases items, 1
  {
    if items == [] {
      assert Taken(true, items, w) && w == [];
    } else {
      if Taken(true, items, w) {
        TakenWithinCompiled(items, w);
      }
      if Skipped(true, items, w) {
        ExpectedWithinCompiled(Init(items), w);
        if Taken(true, Init(items), w) {
          assert Skipped(false, items, w);
        } else {
          BothLeftOut(items, w);
        }
      }
    }
  }

  lemma {:induction false} TakenWithinCompiled(items: seq<Item>, w: Word)
    requires items != [] && NoClash(items) && Taken(true, items, w)
    ensures Taken(false, items, w)
    decreases items, 0
  {
    var u: Word, v: Word :| Joined(w, u, v) && Words(true, Init(items), u) && OnceOrMore(true, Last(items), v);
    ExpectedWithinCompiled(Init(items), u);
    OnceWithinCompiled(Last(items), v);
    assert Joined(w, u, v) && Words(false, Init(items), u) && OnceOrMore(false, Last(items), v);
  }

  /** The last two items are left out: the one that can be empty is taken. */
  lemma {:induction false} BothLeftOut(items: seq<Item>, w: Word)
    requires items != [] && NoClash(items) && Last(items).skip
    requires Skipped(true, Init(items), w) && Words(false, Init(items), w)
    ensures Words(false, items, w)
    decreases items, 0
  {
    var before, p, q := Init(Init(items)), Last(Init(items)), Last(items);
    assert !Clash(p, q);
    if BodyNullable(q) {
      TakenEmpty(items, w);
    } else {
      ExpectedWithinCompiled(before, w);
      TakenEmpty(Init(items), w);
      assert Skipped(false, items, w);
    }
  }

  lemma TakenEmpty(items: seq<Item>, w: Word)
    requires items != [] && Words(false, Init(items), w) && BodyNullable(Last(items))
    ensures Taken(false, items, w)
  {
    EmptyOnceIff(Last(items));
    assert Joined(w, w, []) && Words(false, Init(items), w) && OnceOrMore(false, Last(items), []);
  }

  lemma {:induction false} OnceWithinCompiled(item: Item, v: Word)
    requires NoClashInside(item) && OnceOrMore(true, item, v)
    ensures OnceOrMore(false, item, v)
    decreases item
  {
    var n := Rounds(true, item, v);
    TimesWithinCompiled(item.body, v, n);
  }

  lemma {:induction false} TimesWithinCompiled(body: Body, v: Word, n: nat)
    requires body.Group? ==> NoClash(body.items)
    requires Times(true, body, v, n)
    ensures Times(false, body, v, n)
    decreases body, n
  {
    if n > 0 {
      var x: Word, y: Word :| Joined(v, x, y) && BodyWord(true, body, x) && Times(true, body, y, n - 1);
      TimesWithinCompiled(body, y, n - 1);
      if body.Group? {
        ExpectedWithinCompiled(body.items, x);
      }
      assert Joined(v, x, y) && BodyWord(false, body, x) && Times(false, body, y, n - 1);
    }
  }

  // The converse.

  /** The shortest expected word: every item that can be left out is, the others occur once. */
  function Shortest(items: seq<Item>): Word
    decreases items
  {
    if items == [] then [] else Shortest(Init(items)) + if Last(items).skip then [] else ShortestBody(Last(items))
  }

  function ShortestBody(item: Item): Word
    decreases item
  {
    match item.body
    case Single(a) => [a]
    case Group(items) => Shortest(items)
  }

  lemma {:induction false} ShortestIsExpected(items: seq<Item>)
    ensures Words(true, items, Shortest(items))
    decreases items
  {
    if items != [] {
      ShortestIsExpected(Init(items));
      if Last(items).skip {
        assert Shortest(items) == Shortest(Init(items));
        assert Skipped(true, items, Shortest(items));
      } else {
        var v := ShortestBody(Last(items));
        ShortestBodyIsExpected(Last(items));
        assert Joined(Shortest(items), Shortest(Init(items)), v) && OnceOrMore(true, Last(items), v);
      }
    }
  }

  lemma {:induction false} ShortestBodyIsExpected(item: Item)
    ensures OnceOrMore(true, item, ShortestBody(item))
    decreases item
  {
    var v := ShortestBody(item);
    if item.body.Group? {
      ShortestIsExpected(item.body.items);
    }
    OnceIs(true, item, v);
  }

  lemma Rounds(free: bool, item: Item, v: Word) returns (n: nat)
    requires OnceOrMore(free, item, v)
    ensures n >= 1 && (n == 1 || item.loop) && Times(free, item.body, v, n)
  {
    n :| n >= 1 && (n == 1 || item.loop) && Times(free, item.body, v, n);
  }

  lemma FirstRound(free: bool, item: Item, v: Word) returns (x: Word, y: Word)
    requires OnceOrMore(free, item, v)
    ensures v == x + y && BodyWord(free, item.body, x)
    ensures !item.loop ==> y == []
  {
    var n := Rounds(free, item, v);
    x, y :| Joined(v, x, y) && BodyWord(free, item.body, x) && Times(free, item.body, y, n - 1);
  }

  /** Without a start-over edge there is one round. */
  lemma OnceIs(free: bool, item: Item, w: Word)
    ensures BodyWord(free, item.body, w) ==> OnceOrMore(free, item, w)
    ensures !item.loop && OnceOrMore(free, item, w) ==> BodyWord(free, item.body, w)
  {
    if BodyWord(free, item.body, w) {
      assert Joined(w, w, []) && Times(free, item.body, [], 0);
      assert Times(free, item.body, w, 1);
    }
    if OnceOrMore(free, item, w) {
      var x, y := FirstRound(free, item, w);
      assert !item.loop ==> w == x;
    }
  }

  /** No other word, expected or compiled, is as short. */
  lemma {:induction false} ShortestIsLeast(free: bool, items: seq<Item>, w: Word)
    requires Words(free, items, w)
    ensures |w| >= |Shortest(items)|
    ensures |w| == |Shortest(items)| ==> w == Shortest(items)
    decreases items, 1
  {
    if items == [] {
      assert w == [];
    } else if Taken(free, items, w) {
      var u: Word, v: Word :| Joined(w, u, v) && Words(free, Init(items), u) && OnceOrMore(free, Last(items), v);
      ShortestIsLeast(free, Init(items), u);
      ShortestRound(free, Last(items), v);
    } else {
      ShortestIsLeast(free, Init(items), w);
    }
  }

  lemma {:induction false} ShortestRound(free: bool, item: Item, v: Word)
    requires OnceOrMore(free, item, v)
    ensures |v| >= |ShortestBody(item)|
    ensures |v| == |ShortestBody(item)| ==> v == ShortestBody(item)
    decreases item, 0
  {
    var x, y := FirstRound(free, item, v);
    if item.body.Group? {
      ShortestIsLeast(free, item.body.items, x);
    }
  }

  /** That word is compiled only if no two neighbours clash where they have to occur: it takes no skippable item
      unless it takes it empty. */
  lemma {:induction false} ShortestCompiled(items: seq<Item>)
    requires Words(false, items, Shortest(items))
    ensures NoOpenClash(items)
    ensures items != [] && Last(items).skip && Taken(false, items, Shortest(items)) ==> BodyNullable(Last(items))
    decreases items
  {
    if items != [] {
      var w := Shortest(items);
      if Taken(false, items, w) {
        var u: Word, v: Word :| Joined(w, u, v) && Words(false, Init(items), u) && OnceOrMore(false, Last(items), v);
        ShortestIsLeast(false, Init(items), u);
        ShortestRound(false, Last(items), v);
        ShortestCompiled(Init(items));
        EmptyOnceIff(Last(items));
        if !Last(items).skip {
          ShortestRoundCompiled(Last(items));
        }
      }
      if Skipped(false, items, w) {
        assert w == Shortest(Init(items));
        ShortestCompiled(Init(items));
      }
    }
  }

  lemma {:induction false} ShortestRoundCompiled(item: Item)
    requires OnceOrMore(false, item, ShortestBody(item)) && !item.skip
    ensures NoOpenClashInside(item)
    decreases item
  {
    if item.body.Group? {
      var x, y := FirstRound(false, item, ShortestBody(item));
      ShortestIsLeast(false, item.body.items, x);
      ShortestCompiled(item.body.items);
    }
  }

  ghost predicate SameLanguage(items: seq<Item>) {
    forall w: Word :: Words(true, items, w) <==> Words(false, items, w)
  }

  lemma {:induction false} NoClashParts(items: seq<Item>)
    ensures NoClash(items) <==> NoOpenClash(items) && OptionalFine(items)
    decreases items
  {
    if items != [] {
      NoClashParts(Init(items));
      NoClashPartsInside(Last(items));
    }
  }

  lemma {:induction false} NoClashPartsInside(item: Item)
    ensures NoClashInside(item) <==> NoOpenClashInside(item) && OptionalFineInside(item)
    decreases item
  {
    if item.body.Group? {
      NoClashParts(item.body.items);
    }
  }

  /** Without clashes, at any depth, the compiled graph has the expected language; with a clash where it has to occur,
      at any depth, it never has. So where the groups that can be left out have none inside, it has if and only if
      there is none. */
  lemma CompiledIsExpectedIff(items: seq<Item>)
    ensures NoClash(items) ==> SameLanguage(items)
    ensures SameLanguage(items) ==> NoOpenClash(items)
    ensures OptionalFine(items) ==> (SameLanguage(items) <==> NoClash(items))
  {
    NoClashParts(items);
    if NoClash(items) {
      forall w: Word
        ensures Words(true, items, w) <==> Words(false, items, w)
      {
        if Words(false, items, w) {
          CompiledWithinExpected(items, w);
        }
        if Words(true, items, w) {
          ExpectedWithinCompiled(items, w);
        }
      }
    }
    if SameLanguage(items) {
      ShortestIsExpected(items);
      ShortestCompiled(items);
    }
  }

  // Patterns that repeat something empty.

  /** No `+`, `*` or `-`, at any depth, follows a group that can spell the empty word. */
  predicate NoNullableLoops(items: seq<Item>) {
    items == [] || (NoNullableLoops(Init(items)) && NoNullableLoopInside(Last(items)))
  }

  predicate NoNullableLoopInside(item: Item) {
    (item.loop ==> !BodyNullable(item)) && (item.body.Group? ==> NoNullableLoops(item.body.items))
  }

  lemma {:induction false} EmptyWordIff(items: seq<Item>)
    ensures Taken(false, items, []) <==> EmptyTaken(items)
    ensures Skipped(false, items, []) <==> EmptySkipped(items)
    decreases items
  {
    if items != [] {
      EmptyWordIff(Init(items));
      EmptyOnceIff(Last(items));
      if EmptyTaken(items) {
        assert Joined([], [], []) && Words(false, Init(items), []) && OnceOrMore(false, Last(items), []);
      }
      if Taken(false, items, []) {
        var u: Word, v: Word :| Joined([], u, v) && Words(false, Init(items), u) && OnceOrMore(false, Last(items), v);
        assert u == [] && v == [];
      }
    }
  }

  lemma {:induction false} EmptyOnceIff(item: Item)
    ensures BodyWord(false, item.body, []) <==> BodyNullable(item)
    ensures OnceOrMore(false, item, []) <==> BodyNullable(item)
    decreases item
  {
    if item.body.Group? {
      EmptyWordIff(item.body.items);
    }
    if BodyNullable(item) {
      assert Joined([], [], []) && BodyWord(false, item.body, []) && Times(false, item.body, [], 0);
      assert Times(false, item.body, [], 1);
    }
    if OnceOrMore(false, item, []) {
      var x, y := FirstRound(false, item, []);
      assert x == [];
    }
  }
}
