/** `m::Pattern` of src/Pattern.cpp: compiling pattern text into the node graph. */
module Pattern {
  import opened Chars
  import opened PatternLanguage
  import opened PatternSyntax
  import opened PatternGraph
  import opened PatternFragment
  import opened PatternLayout
  import opened Wrappers

  /** The nodes allocated from lo on. */
  function Range(lo: nat, hi: nat): (s: set<nat>)
    ensures forall n :: n in s <==> lo <= n < hi
    decreases hi - lo
  {
    if lo >= hi then {} else {lo} + Range(lo + 1, hi)
  }

  /** The part of the text that `it` and `len` delimit. */
  function Text(s: string, it: nat, len: nat): string
    requires it + len <= |s|
  {
    s[it..it + len]
  }

  lemma TextStart(s: string, it: nat, len: nat)
    requires it + len <= |s|
    ensures |Text(s, it, len)| == len && (len > 0 ==> Text(s, it, len)[0] == s[it])
  {
  }

  lemma TextTail(s: string, it: nat, len: nat, k: nat)
    requires it + len <= |s| && k <= len
    ensures Text(s, it, len)[k..] == Text(s, it + k, len - k)
  {
  }

  lemma TextHead(s: string, it: nat, len: nat, k: nat)
    requires it + len <= |s| && k <= len
    ensures Text(s, it, len)[..k] == Text(s, it, k)
  {
  }

  /** The first item of a text, from its body and what follows that. */
  lemma FirstItem(t: string)
    requires t != ""
    ensures ParseItems(t) == match ParseBody(t) case Bad(e) => Bad(e)
                             case Ok(body, r) =>
                               Prepend([Item(body, IsSkip(r), IsLoop(r))], ParseItems(AfterQuantifier(r)))
  {
    hide ParseBody;
  }

  lemma Quantifier(s: string, it: nat, len: nat)
    requires it + len <= |s|
    ensures var t := Text(s, it, len);
            && (IsSkip(t) <==> len > 0 && (s[it] == '?' || s[it] == '*' || s[it] == '-'))
            && (IsLoop(t) <==> len > 0 && (s[it] == '*' || s[it] == '-' || s[it] == '+'))
            && AfterQuantifier(t) == if IsSkip(t) || IsLoop(t) then Text(s, it + 1, len - 1) else t
  {
    if len > 0 {
      TextTail(s, it, len, 1);
    }
  }

  lemma PrependNone(done: seq<Item>, e: ParseError)
    ensures Prepend(done, Bad(e)) == Bad(e)
  {
  }

  lemma NoItems(s: string, it: nat, done: seq<Item>)
    requires it <= |s|
    ensures Prepend(done, ParseItems(Text(s, it, 0))) == Ok(done, "")
  {
    assert done + [] == done;
  }

  lemma PatternOfItems(t: string, items: seq<Item>)
    requires ParseItems(t) == Ok(items, "")
    ensures ParsePattern(t) == if items == [] then Bad(EmptyPattern) else Ok(items, "")
  {
  }

  lemma PatternOfError(t: string, e: ParseError)
    requires ParseItems(t) == Bad(e)
    ensures ParsePattern(t) == Bad(e)
  {
  }

  lemma PrependMore(done: seq<Item>, item: Item, r: Parsed<seq<Item>>)
    ensures Prepend(done, Prepend([item], r)) == Prepend(done + [item], r)
    ensures Prepend([], r) == r
  {
    if r.Ok? {
      assert (done + [item]) + r.value == done + ([item] + r.value);
      assert [] + r.value == r.value;
    }
  }

  predicate SingleCharacters(bounds: seq<Bounds>) {
    forall i :: 0 <= i < |bounds| ==> bounds[i].cmin == bounds[i].cmax
  }

  /** `makeNodeFromBoundList`: the cheapest node kind for a bound list. */
  method MakeNodeFromBoundList(ranges: seq<Bounds>, hasRange: bool, inv: bool) returns (n: Node)
    requires ranges != []
    requires !hasRange ==> SingleCharacters(ranges)
    requires hasRange && |ranges| == 1 ==> ranges[0].cmin != ranges[0].cmax
    ensures n.next == [] && n.kind != EndNode && AtomOf(n) == OneOf(ranges, inv) && WellMade(n)
  {
    if hasRange {
      if |ranges| > 1 {
        n := Node(MultiRange(ranges), false, []);
      } else {
        n := Node(CharRange(ranges[0].cmin, ranges[0].cmax), false, []);
        assert ranges == [ranges[0]];
      }
    } else {
      if |ranges| > 1 {
        var str := "";
        for i := 0 to |ranges|
          invariant Singletons(str) == ranges[..i]
        {
          assert Singletons(str + [ranges[i].cmin]) == Singletons(str) + [ranges[i]];
          str := str + [ranges[i].cmin];
        }
        n := Node(MultiChar(str), false, []);
      } else {
        n := Node(CharNode(ranges[0].cmin), false, []);
        assert ranges == [ranges[0]];
      }
    }
    if inv {
      n := n.(inverted := true);
    }
  }

  /** One character inside a bracket: escaped, or not a control character. */
  method ParseOneChar(s: string, it0: nat, len0: nat) returns (err: Option<ParseError>, it: nat, len: nat, c: char)
    requires it0 + len0 <= |s| && len0 > 0
    ensures it + len == it0 + len0 && len < len0
    ensures match ParseRangeChar(Text(s, it0, len0))
            case Bad(e) => err == Some(e)
            case Ok(v, rest) => err == None && c == v && Text(s, it, len) == rest
  {
    c := s[it0];
    it, len, err := it0 + 1, len0 - 1, None;
    if c == '%' {
      if len < 1 {
        return Some(MisplacedEscape), it, len, c;
      }
      c := s[it];
      it, len := it + 1, len - 1;
    } else if IsInternalChar(c) {
      err := Some(MisplacedCtrlChar);
    }
  }

  /** One character or range inside a bracket. */
  method ParseOneRange(s: string, it0: nat, len0: nat) returns (err: Option<ParseError>, it: nat, len: nat, b: Bounds)
    requires it0 + len0 <= |s| && len0 > 0
    ensures it + len == it0 + len0 && len < len0
    ensures match ParseRange(Text(s, it0, len0))
            case Bad(e) => err == Some(e)
            case Ok(v, rest) => err == None && b == v && Text(s, it, len) == rest
  {
    hide ParseRangeChar, IsInternalChar, Signed;
    b := Bounds(' ', ' ');
    var c1;
    err, it, len, c1 := ParseOneChar(s, it0, len0);
    if err.Some? {
      return;
    }
    if len > 0 && s[it] == '-' {
      if len < 2 {
        err := Some(MisplacedCtrlChar);
        return;
      }
      TextTail(s, it, len, 1);
      var c2;
      err, it, len, c2 := ParseOneChar(s, it + 1, len - 1);
      if err.Some? {
        return;
      }
      if Signed(c1) > Signed(c2) {
        err := Some(InvalidRange);
        return;
      }
      b := Bounds(c1, c2);
    } else {
      b := Bounds(c1, c1);
    }
  }

  function PrependRanges(done: seq<Bounds>, r: Parsed<seq<Bounds>>): Parsed<seq<Bounds>> {
    match r
    case Bad(e) => Bad(e)
    case Ok(bs, rest) => Ok(done + bs, rest)
  }

  lemma PrependMoreRanges(done: seq<Bounds>, b: Bounds, r: Parsed<seq<Bounds>>)
    ensures PrependRanges(done, PrependRanges([b], r)) == PrependRanges(done + [b], r)
    ensures PrependRanges([], r) == r
  {
    if r.Ok? {
      assert (done + [b]) + r.value == done + ([b] + r.value);
      assert [] + r.value == r.value;
    }
  }

  /** What the text says next, and what it makes of the ranges so far. */
  lemma NextRanges(t: string, done: seq<Bounds>)
    ensures t == "" ==> PrependRanges(done, ParseRanges(t)) == Bad(UnclosedBracket)
    ensures t != "" && t[0] == ']' ==> PrependRanges(done, ParseRanges(t)) == Ok(done, t[1..])
    ensures t != "" && t[0] != ']' ==>
              match ParseRange(t)
              case Bad(e) => PrependRanges(done, ParseRanges(t)) == Bad(e)
              case Ok(b, rest) => PrependRanges(done, ParseRanges(t)) == PrependRanges(done + [b], ParseRanges(rest))
  {
    hide ParseRange, PrependRanges;
    if t != "" && t[0] != ']' {
      NextRange(t);
      match ParseRange(t) {
        case Bad(e) => NoRanges(done, e);
        case Ok(b, rest) => PrependMoreRanges(done, b, ParseRanges(rest));
      }
    } else {
      NothingMore(done, t);
    }
  }

  lemma NextRange(t: string)
    requires t != "" && t[0] != ']'
    ensures ParseRanges(t) == match ParseRange(t) case Bad(e) => Bad(e)
                              case Ok(b, rest) => PrependRanges([b], ParseRanges(rest))
  {
    hide ParseRange;
  }

  lemma NoRanges(done: seq<Bounds>, e: ParseError)
    ensures PrependRanges(done, Bad(e)) == Bad(e)
  {
  }

  lemma NothingMore(done: seq<Bounds>, t: string)
    ensures t == "" ==> PrependRanges(done, ParseRanges(t)) == Bad(UnclosedBracket)
    ensures t != "" && t[0] == ']' ==> PrependRanges(done, ParseRanges(t)) == Ok(done, t[1..])
  {
    assert done + [] == done;
  }

  lemma SinglesGrow(done: seq<Bounds>, b: Bounds)
    ensures SingleCharacters([])
    ensures SingleCharacters(done + [b]) <==> SingleCharacters(done) && b.cmin == b.cmax
  {
    assert (done + [b])[|done|] == b && forall i :: 0 <= i < |done| ==> (done + [b])[i] == done[i];
  }

  /** The bracket loop of `parseNode`. */
  method ParseBracket(s: string, it0: nat, len0: nat)
    returns (err: Option<ParseError>, it: nat, len: nat, ranges: seq<Bounds>, hasRange: bool)
    requires it0 + len0 <= |s|
    ensures it + len == it0 + len0 && len <= len0
    ensures hasRange <==> !SingleCharacters(ranges)
    ensures match ParseRanges(Text(s, it0, len0))
            case Bad(e) => err == Some(e)
            case Ok(bs, rest) => err == None && ranges == bs && Text(s, it, len) == rest && len < len0
  {
    it, len, ranges, hasRange := it0, len0, [], false;
    ghost var text := Text(s, it0, len0);
    hide ParseRange, SingleCharacters, ParseRanges, Text, PrependRanges;
    SinglesGrow([], Bounds(' ', ' '));
    PrependMoreRanges([], Bounds(' ', ' '), ParseRanges(text));
    while true
      invariant it + len == it0 + len0 && len <= len0
      invariant hasRange <==> !SingleCharacters(ranges)
      invariant ParseRanges(text) == PrependRanges(ranges, ParseRanges(Text(s, it, len)))
      decreases len
    {
      TextStart(s, it, len);
      NextRanges(Text(s, it, len), ranges);
      if len < 1 {
        return Some(UnclosedBracket), it, len, ranges, hasRange;
      }
      if s[it] == ']' {
        TextTail(s, it, len, 1);
        it, len := it + 1, len - 1;
        break;
      }
      var e, it', len', b := ParseOneRange(s, it, len);
      if e.Some? {
        return e, it', len', ranges, hasRange;
      }
      if b.cmin != b.cmax {
        hasRange := true;
      }
      SinglesGrow(ranges, b);
      ranges := ranges + [b];
      it, len := it', len';
    }
    err := None;
  }

  /** `findParenthesisEnd`: where the parenthesis that starts the text closes, counted after it; -1 if nowhere. */
  method FindParenthesisEnd(s: string, start: nat, len0: nat) returns (ret: int)
    requires len0 > 0 && start + len0 <= |s|
    ensures ret == CloseAt(Text(s, start, len0)[1..], 0, false)
  {
    ghost var text := Text(s, start, len0)[1..];
    var level := 0;
    var escape := false;
    ret := 0;
    while ret < len0 - 1
      invariant 0 <= ret <= len0 - 1 && level >= 0
      invariant var k := CloseAt(text[ret..], level, escape);
                CloseAt(text, 0, false) == if k < 0 then -1 else ret + k
    {
      var c := s[start + 1 + ret];
      assert text[ret..][0] == c && text[ret..][1..] == text[ret + 1..];
      if escape {
        escape := false;
      } else if c == '%' {
        escape := true;
      } else if c == '(' {
        level := level + 1;
      } else if c == ')' {
        level := level - 1;
        if level < 0 {
          return;
        }
      }
      ret := ret + 1;
    }
    ret := -1;
  }

  lemma CellsJoint(g: Graph, a: nat, c: nat)
    requires a < |g|
    ensures Cells(WithEdge(g, a, c)) == Joint(Cells(g), a, c)
  {
  }

  lemma CellsOfAtom(g: Graph, g': Graph)
    requires |g'| == |g| + 1 && g'[..|g|] == g && g'[|g|].next == [] && g'[|g|].kind != EndNode
    ensures Cells(g') == Cells(g) + [Cell([AtomOf(g'[|g|])], [])]
  {
    assert g' == g + [g'[|g|]];
    CellsMore(g, g'[|g|]);
  }

  /** One more node, which stands for the atom. */
  ghost predicate NodeAdded(older: Graph, g: Graph, ret: nat, a: Atom) {
    && older <= g && ret == |older| && |g| == ret + 1
    && g[ret].next == [] && g[ret].kind != EndNode && AtomOf(g[ret]) == a && WellMade(g[ret])
  }

  lemma JustAdded(older: Graph, n: Node, a: Atom)
    requires n.next == [] && n.kind != EndNode && AtomOf(n) == a && WellMade(n)
    ensures NodeAdded(older, older + [n], |older|, a)
  {
  }

  lemma TextSecond(s: string, it: nat, len: nat)
    requires it + len <= |s| && len > 1
    ensures Text(s, it, len)[1] == s[it + 1]
  {
  }

  lemma BracketAtom(t: string)
    requires t != "" && t[0] == '['
    ensures var inverted := t[1..] != "" && t[1..][0] == '^';
            ParseAtom(t) == match ParseRanges(if inverted then t[2..] else t[1..])
                            case Bad(e) => Bad(e)
                            case Ok(bs, r) => if bs == [] then Bad(AssertionFailed) else Ok(OneOf(bs, inverted), r)
  {
    hide ParseRanges;
    assert t[1..] != "" ==> t[1..][0] == t[1];
  }

  lemma PlainAtom(t: string)
    requires t != ""
    ensures t[0] == '.' ==> ParseAtom(t) == Ok(Any, t[1..])
    ensures t[0] == '%' && |t| >= 2 ==>
              var bs := SpecialRange(t[1]);
              ParseAtom(t) == Ok(OneOf(if bs == [] then [Bounds(t[1], t[1])] else bs, false), t[2..])
    ensures t[0] != '.' && t[0] != '[' && !(t[0] == '%' && |t| >= 2) ==>
              ParseAtom(t) == if IsInternalChar(t[0]) then Bad(MisplacedCtrlChar)
                              else Ok(OneOf([Bounds(t[0], t[0])], false), t[1..])
  {
    hide ParseRanges, SpecialRange, IsInternalChar;
  }

  /** A class with one entry is a range, whatever `cr` says. */
  lemma LoneBoundIsRange(kind: char)
    ensures |SpecialRange(kind)| == 1 ==> SpecialRange(kind)[0].cmin != SpecialRange(kind)[0].cmax
    ensures |SpecialRange(kind)| == 1 ==> !SingleCharacters(SpecialRange(kind))
  {
  }

  /** The nodes from |older| on are the body, laid out as its layout says. */
  ghost predicate BodyBuilt(older: Graph, g: Graph, nh: int, nt: int, body: Body) {
    && older <= g && nh >= 0 && nt >= 0
    && BodyFragment(g, Range(|older|, |g|), nh, nt, body) && Laid(Cells(g), nh, nt, -1) == LayBody(Cells(older), body)
  }

  lemma GroupBody(t: string)
    requires t != "" && t[0] == '('
    ensures var n := CloseAt(t[1..], 0, false);
            ParseBody(t) == if n < 0 then Bad(UnclosedParenthesis) else if n == 0 then Bad(EmptyCapture)
                            else match ParsePattern(t[1..1 + n])
                              case Bad(e) => Bad(if e == EmptyPattern then EmptyCapture else e)
                              case Ok(items, _) => Ok(Group(items), t[n + 2..])
  {
    hide CloseAt, ParsePattern;
  }

  lemma BodyShape(g: Graph, f: set<nat>, nh: nat, nt: nat, body: Body)
    requires BodyFragment(g, f, nh, nt, body)
    ensures nh in f && nt in f && forall n :: n in f ==> n < |g|
  {
  }

  lemma BuildingShape(g: Graph, s: set<nat>, head: nat, tail: nat, pending: int, done: seq<Item>)
    requires Building(g, s, head, tail, pending, done)
    ensures head in s && tail in s && Pending(pending) <= s && forall n :: n in s ==> n < |g|
  {
  }

  /** One more edge into target, from a node of s or of f. */
  lemma EdgeAdded(g: Graph, g1: Graph, s: set<nat>, f: set<nat>, sources: set<nat>, loops: set<nat>, a: nat,
                  target: nat)
    requires Linked(g, g1, s, sources, target) && Linked(g, g1, f, loops, target)
    requires a < |g1| && s !! f && (a in s || a in f)
    requires forall n :: n in s + f ==> n < |g1|
    ensures Linked(g, WithEdge(g1, a, target), s, if a in s then sources + {a} else sources, target)
    ensures Linked(g, WithEdge(g1, a, target), f, if a in f then loops + {a} else loops, target)
  {
    LinkedByEdge(g1, a, target, s);
    LinkedByEdge(g1, a, target, f);
    LinkedTwice(g, g1, WithEdge(g1, a, target), s, sources, {a} * s, target);
    LinkedTwice(g, g1, WithEdge(g1, a, target), f, loops, {a} * f, target);
    assert sources + {a} * s == if a in s then sources + {a} else sources;
    assert loops + {a} * f == if a in f then loops + {a} else loops;
  }

  function LoopEdge(g: Graph, nh: nat, nt: nat, loop: bool): (r: Graph)
    requires nt < |g|
    ensures |r| == |g|
  {
    if loop then WithEdge(g, nt, nh) else g
  }

  function PendingEdge(g: Graph, pending: int, nh: nat): (r: Graph)
    requires pending < |g|
    ensures |r| == |g|
  {
    if pending >= 0 then WithEdge(g, pending, nh) else g
  }

  lemma OneEdge(g: Graph, f: set<nat>, nh: nat, nt: nat, loop: bool)
    requires nt in f && forall n :: n in f ==> n < |g|
    ensures Linked(g, LoopEdge(g, nh, nt, loop), f, if loop then {nt} else {}, nh)
  {
    LinkedNothing(g, g, f, nh);
    LinkedNothing(g, g, {}, nh);
    EdgeAdded(g, g, {}, f, {}, {}, nt, nh);
    assert {} + {nt} == {nt};
  }

  /** The edges one item adds, seen from both sides. */
  lemma ItemEdges(g: Graph, s: set<nat>, f: set<nat>, tail: nat, pending: int, nh: nat, nt: nat, loop: bool)
    requires s !! f && (forall n :: n in s ==> n < |g|) && (forall n :: n in f ==> n < |g|)
    requires tail in s && Pending(pending) <= s && nt in f && pending < |g|
    ensures var g' := WithEdge(LoopEdge(PendingEdge(g, pending, nh), nh, nt, loop), tail, nh);
            Linked(g, g', s, {tail} + Pending(pending), nh) && Linked(g, g', f, if loop then {nt} else {}, nh)
  {
    hide Linked;
    LinkedNothing(g, g, s, nh);
    LinkedNothing(g, g, f, nh);
    assert pending >= 0 ==> pending in Pending(pending);
    var g1 := PendingEdge(g, pending, nh);
    if pending >= 0 {
      EdgeAdded(g, g, s, f, {}, {}, pending, nh);
    }
    assert {} + Pending(pending) == Pending(pending);
    var g2 := LoopEdge(g1, nh, nt, loop);
    var loops: set<nat> := if loop then {nt} else {};
    if loop {
      EdgeAdded(g, g1, s, f, Pending(pending), {}, nt, nh);
    }
    assert {} + loops == loops;
    EdgeAdded(g, g2, s, f, Pending(pending), loops, tail, nh);
    assert Pending(pending) + {tail} == {tail} + Pending(pending);
  }

  lemma BuildingStill(g: Graph, g': Graph, s: set<nat>, head: int, tail: int, pending: int, done: seq<Item>)
    requires |g| <= |g'| && g'[..|g|] == g
    requires forall n :: n in s ==> n < |g|
    requires done != [] ==> head >= 0 && tail >= 0 && Building(g, s, head, tail, pending, done)
    ensures done != [] ==> Building(g', s, head, tail, pending, done)
  {
    LinkedNothing(g, g', s, 0);
    if done != [] {
      BuildingKept(g, g', s, head, tail, pending, done);
    }
  }

  /** All edges that one item adds behind the others. */
  function ItemGraph(g: Graph, tail: nat, pending: int, nh: nat, nt: nat, loop: bool): (r: Graph)
    requires tail < |g| && pending < |g| && nt < |g|
    ensures |r| == |g|
  {
    WithEdge(LoopEdge(PendingEdge(g, pending, nh), nh, nt, loop), tail, nh)
  }

  const END_NODE := Node(EndNode, false, [])

  /** What one item changes: the first one may need an end node before it, to be skipped from. */
  ghost predicate ItemAdded(g: Graph, head: int, tail: int, pending: int, nh: nat, nt: nat, skip: bool, loop: bool,
                            g': Graph, head': int, tail': int, pending': int)
    requires nt < |g| && tail < |g| && pending < |g|
  {
    && tail' == nt
    && if head < 0 && !skip then g' == LoopEdge(g, nh, nt, loop) && head' == nh && pending' == -1
       else
         && head' == (if head < 0 then |g| else head)
         && var base := if head < 0 then g + [END_NODE] else g;
            var last := if head < 0 then |g| else tail;
            && last >= 0 && g' == ItemGraph(base, last, pending, nh, nt, loop) && pending' == if skip then last else -1
  }

  /** One more item behind the others. */
  lemma ItemJoined(g: Graph, s: set<nat>, f: set<nat>, head: nat, tail: nat, pending: int, nh: nat, nt: nat,
                   done: seq<Item>, item: Item)
    requires Building(g, s, head, tail, pending, done) && s !! f && BodyFragment(g, f, nh, nt, item.body)
    ensures pending < |g| && tail < |g| && nt < |g|
    ensures var pending' := if item.skip then tail as int else -1;
            Building(ItemGraph(g, tail, pending, nh, nt, item.loop), s + f, head, nt, pending', done + [item])
  {
    BuildingShape(g, s, head, tail, pending, done);
    BodyShape(g, f, nh, nt, item.body);
    assert pending >= 0 ==> pending in Pending(pending);
    hide Building, BodyFragment, Linked, WithEdge;
    var g' := ItemGraph(g, tail, pending, nh, nt, item.loop);
    ItemEdges(g, s, f, tail, pending, nh, nt, item.loop);
    BuildItem(g, g', s, f, head, tail, pending, nh, nt, done, item);
  }

  lemma FirstItemAlone(g: Graph, f: set<nat>, nh: nat, nt: nat, item: Item)
    requires BodyFragment(g, f, nh, nt, item.body) && !item.skip
    ensures nt < |g| && Building(LoopEdge(g, nh, nt, item.loop), f, nh, nt, -1, [item])
  {
    BodyShape(g, f, nh, nt, item.body);
    hide Building, BodyFragment, Linked, WithEdge;
    OneEdge(g, f, nh, nt, item.loop);
    BuildFirstItem(g, LoopEdge(g, nh, nt, item.loop), f, nh, nt, item);
  }

  lemma FirstItemSkipped(g: Graph, f: set<nat>, nh: nat, nt: nat, item: Item)
    requires BodyFragment(g, f, nh, nt, item.body) && item.skip && |g| !in f
    ensures nt < |g|
    ensures Building(ItemGraph(g + [END_NODE], |g|, -1, nh, nt, item.loop), {|g| as nat} + f, |g|, nt, |g|, [item])
  {
    hide Building, BodyFragment, Linked, WithEdge, LoopEdge, PendingEdge, ItemGraph;
    BodyShape(g, f, nh, nt, item.body);
    var base, e: nat := g + [END_NODE], |g|;
    StartBuilding(base, e);
    LinkedNothing(g, base, f, 0);
    BodyFragmentKept(g, base, f, nh, nt, item.body);
    ItemJoined(base, {e}, f, e, e, -1, nh, nt, [], item);
    assert [] + [item] == [item];
  }

  /** Between two turns of the loop: the nodes from |older| on are the items so far. */
  ghost predicate PartBuilt(older: Graph, g: Graph, head: int, tail: int, pending: int, items: seq<Item>) {
    && older <= g && -1 <= pending < |g| && tail < |g|
    && (if items == [] then head == -1 && tail == -1 && pending == -1 && g == older
        else head >= 0 && tail >= 0 && Building(g, Range(|older|, |g|), head, tail, pending, items))
    && Laid(Cells(g), head, tail, pending) == LayItems(Cells(older), items)
  }

  lemma StartAlike(older: Graph, g: Graph, g': Graph)
    requires older <= g && |g| <= |g'| && forall n :: 0 <= n < |older| ==> g'[n] == g[n]
    ensures older <= g'
  {
  }

  /** An item's edges start at nodes that are no older than the item list. */
  lemma ItemLeavesOld(older: Graph, g: Graph, head: int, tail: int, pending: int, nh: nat, nt: nat, skip: bool,
                      loop: bool, g': Graph, head': int, tail': int, pending': int)
    requires older <= g && |older| <= nt < |g| && tail < |g| && pending < |g|
    requires head >= 0 ==> tail >= |older|
    requires pending >= 0 ==> pending >= |older|
    requires ItemAdded(g, head, tail, pending, nh, nt, skip, loop, g', head', tail', pending')
    ensures older <= g' && |g| <= |g'| && tail' < |g'| && pending' < |g'|
  {
    StartAlike(older, g, g');
  }

  /** One turn of the loop keeps what is true between two turns. */
  lemma TurnKeeps(older: Graph, before: Graph, g: Graph, head: int, tail: int, pending: int, nh: nat, nt: nat,
                  done: seq<Item>, item: Item, g': Graph, head': int, tail': int, pending': int)
    requires PartBuilt(older, before, head, tail, pending, done) && BodyBuilt(before, g, nh, nt, item.body)
    requires nt < |g| && tail < |g| && pending < |g|
    requires ItemAdded(g, head, tail, pending, nh, nt, item.skip, item.loop, g', head', tail', pending')
    requires Laid(Cells(g'), head', tail', pending')
          == LinkOn(Laid(Cells(g), head, tail, pending), nh, nt, item.skip, item.loop)
    ensures PartBuilt(older, g', head', tail', pending', done + [item])
  {
    hide Building, BodyFragment, Cells, LayItems, LayBody, LinkOn, ItemAdded, Range;
    BodyShape(g, Range(|before|, |g|), nh, nt, item.body);
    if done != [] {
      BuildingShape(before, Range(|older|, |before|), head, tail, pending, done);
      assert pending >= 0 ==> pending in Pending(pending);
      BuildingStill(before, g, Range(|older|, |before|), head, tail, pending, done);
    }
    ItemLeavesOld(older, g, head, tail, pending, nh, nt, item.skip, item.loop, g', head', tail', pending');
    ItemKeepsBuilding(g, |older|, |before|, head, tail, pending, nh, nt, done, item, g', head', tail', pending');
    LayItemsMore(Cells(older), done, item);
  }

  /** The end node behind an item that can be skipped. */
  lemma EndLinked(g: Graph, s: set<nat>, head: nat, tail: nat, pending: nat, items: seq<Item>)
    requires Building(g, s, head, tail, pending, items) && tail < |g| && pending < |g| && |g| !in s
    ensures Fragment(WithEdge(WithEdge(g + [END_NODE], tail, |g|), pending, |g|), s + {|g| as nat}, head, |g|, items)
  {
    BuildingShape(g, s, head, tail, pending, items);
    hide Building, Fragment, Linked;
    var end: nat, g1 := |g|, g + [END_NODE];
    var g2, g3 := WithEdge(g1, tail, end), WithEdge(WithEdge(g1, tail, end), pending, end);
    LinkedNothing(g, g1, s, end);
    LinkedNothing(g, g1, {}, end);
    assert pending in Pending(pending);
    EdgeAdded(g, g1, s, {}, {}, {}, tail, end);
    EdgeAdded(g, g2, s, {}, {} + {tail}, {}, pending, end);
    assert {} + {tail} + {pending} == {tail} + Pending(pending);
    FinishPending(g, g3, s, end, head, tail, pending, items);
  }

  lemma BuiltShape(older: Graph, g: Graph, nh: int, nt: int, body: Body)
    requires BodyBuilt(older, g, nh, nt, body)
    ensures older <= g && nh >= 0 && 0 <= nt < |g|
  {
    BodyShape(g, Range(|older|, |g|), nh, nt, body);
  }

  lemma NothingBuilt(g: Graph)
    ensures PartBuilt(g, g, -1, -1, -1, [])
  {
    LayNothing(Cells(g));
  }

  lemma PartShape(older: Graph, g: Graph, head: int, tail: int, pending: int, items: seq<Item>)
    requires PartBuilt(older, g, head, tail, pending, items)
    ensures older <= g && -1 <= pending < |g| && tail < |g|
    ensures if head < 0 then items == [] && head == tail == pending == -1 else items != [] && tail >= 0
  {
  }

  lemma ItemKeepsBuilding(g: Graph, lo: nat, mid: nat, head: int, tail: int, pending: int, nh: nat, nt: nat,
                          done: seq<Item>, item: Item, g': Graph, head': int, tail': int, pending': int)
    requires lo <= mid <= |g| && pending >= -1
    requires if done == [] then head == -1 && tail == -1 && pending == -1 && lo == mid
             else head >= 0 && tail >= 0 && Building(g, Range(lo, mid), head, tail, pending, done)
    requires BodyFragment(g, Range(mid, |g|), nh, nt, item.body)
    requires nt < |g| && tail < |g| && pending < |g|
    requires ItemAdded(g, head, tail, pending, nh, nt, item.skip, item.loop, g', head', tail', pending')
    ensures |g'| >= |g| && head' >= 0 && tail' >= 0 && pending' >= -1
    ensures Building(g', Range(lo, |g'|), head', tail', pending', done + [item])
  {
    hide Building, BodyFragment, ItemGraph, LoopEdge, Range;
    var f := Range(mid, |g|);
    if done == [] {
      assert done + [item] == [item];
      if item.skip {
        FirstItemSkipped(g, f, nh, nt, item);
        assert {|g| as nat} + f == Range(lo, |g'|);
      } else {
        FirstItemAlone(g, f, nh, nt, item);
      }
    } else {
      ItemJoined(g, Range(lo, mid), f, head, tail, pending, nh, nt, done, item);
      assert Range(lo, mid) + f == Range(lo, |g'|);
    }
  }

  class Pattern {
    var nodes: Graph
    var root: int // index of m_root, -1 when null
    var anchoredStart: bool
    var anchoredEnd: bool
    var err: Option<ParseError>

    method NewNode(n: Node) returns (i: nat)
      modifies this`nodes
      ensures i == |old(nodes)| && nodes == old(nodes) + [n]
      ensures Cells(nodes) == Cells(old(nodes)) + [Cell(Label(n), n.next)]
    {
      CellsMore(nodes, n);
      i := |nodes|;
      nodes := nodes + [n];
    }

    method AddChild(a: nat, c: nat)
      requires a < |nodes|
      modifies this`nodes
      ensures nodes == WithEdge(old(nodes), a, c)
      ensures Cells(nodes) == Joint(Cells(old(nodes)), a, c)
    {
      CellsJoint(nodes, a, c);
      nodes := nodes[a := nodes[a].(next := nodes[a].next + [c])];
    }

    /** The bracket branch of `parseNode`. */
    method ParseBracketNode(s: string, it0: nat, len0: nat) returns (e: Option<ParseError>, it: nat, len: nat, ret: nat)
      requires it0 + len0 <= |s| && len0 > 0 && s[it0] == '['
      modifies this`nodes
      ensures it + len == it0 + len0 && len <= len0
      ensures match ParseAtom(Text(s, it0, len0))
              case Bad(x) => e == Some(x) && nodes == old(nodes)
              case Ok(a, rest) =>
                e == None && Text(s, it, len) == rest && len < len0 && NodeAdded(old(nodes), nodes, ret, a)
    {
      hide ParseAtom, ParseRanges, Text, NodeAdded;
      it, len, ret := it0 + 1, len0 - 1, 0;
      TextStart(s, it0, len0);
      TextTail(s, it0, len0, 1);
      TextStart(s, it, len);
      BracketAtom(Text(s, it0, len0));
      var invert := false;
      if len > 0 && s[it] == '^' {
        TextTail(s, it0, len0, 2);
        invert := true;
        it, len := it + 1, len - 1;
      }
      var ranges, hasRange;
      e, it, len, ranges, hasRange := ParseBracket(s, it, len);
      if e.Some? {
        return;
      }
      if ranges == [] {
        e := Some(AssertionFailed);
        return;
      }
      var n := MakeNodeFromBoundList(ranges, hasRange, invert);
      ret := NewNode(n);
      JustAdded(old(nodes), n, OneOf(ranges, invert));
    }

    /** `parseNode`: reads one atom and makes its node. */
    method ParseNode(s: string, it0: nat, len0: nat) returns (e: Option<ParseError>, it: nat, len: nat, ret: nat)
      requires it0 + len0 <= |s| && len0 > 0
      modifies this`nodes
      ensures it + len == it0 + len0 && len <= len0
      ensures match ParseAtom(Text(s, it0, len0))
              case Bad(x) => e == Some(x) && nodes == old(nodes)
              case Ok(a, rest) =>
                e == None && Text(s, it, len) == rest && len < len0 && NodeAdded(old(nodes), nodes, ret, a)
    {
      hide ParseAtom, ParseRanges, Text, NodeAdded, IsInternalChar, SpecialRange;
      TextStart(s, it0, len0);
      TextTail(s, it0, len0, 1);
      PlainAtom(Text(s, it0, len0));
      it, len, e, ret := it0, len0, None, 0;
      if s[it] == '.' {
        it, len := it + 1, len - 1;
        ret := NewNode(Node(AnyNode, false, []));
        JustAdded(old(nodes), Node(AnyNode, false, []), Any);
      } else if s[it] == '[' {
        e, it, len, ret := ParseBracketNode(s, it, len);
      } else {
        var chr := s[it];
        if chr == '%' && len >= 2 {
          TextTail(s, it0, len0, 2);
          TextSecond(s, it0, len0);
          chr := s[it + 1];
          it, len := it + 2, len - 2;
          var bounds := SpecialRange(chr);
          if bounds != [] {
            // `cr` is only set when the class contains a range, and read uninitialised otherwise
            var cr: bool := *;
            if !SingleCharacters(bounds) {
              cr := true;
            }
            LoneBoundIsRange(chr);
            var n := MakeNodeFromBoundList(bounds, cr, false);
            ret := NewNode(n);
            JustAdded(old(nodes), n, OneOf(bounds, false));
            return;
          }
        } else {
          if IsInternalChar(chr) {
            e := Some(MisplacedCtrlChar);
            return;
          }
          it, len := it + 1, len - 1;
        }
        ret := NewNode(Node(CharNode(chr), false, []));
        JustAdded(old(nodes), Node(CharNode(chr), false, []), OneOf([Bounds(chr, chr)], false));
      }
    }

    /** The tail of `parsePat`'s loop: the pending skip edge, the quantifier's edges, the edge from the tail. */
    method LinkItem(head0: int, tail0: int, pending0: int, newHead: nat, newTail: nat, skip: bool, loop: bool)
      returns (head: int, tail: int, addChildToThis: int)
      requires newTail < |nodes| && tail0 < |nodes| && -1 <= pending0 < |nodes|
      requires if head0 < 0 then head0 == tail0 == pending0 == -1 else tail0 >= 0
      modifies this`nodes
      ensures ItemAdded(old(nodes), head0, tail0, pending0, newHead, newTail, skip, loop, nodes, head, tail,
              addChildToThis)
      ensures Laid(Cells(nodes), head, tail, addChildToThis)
           == LinkOn(Laid(Cells(old(nodes)), head0, tail0, pending0), newHead, newTail, skip, loop)
    {
      hide WithEdge, Cells, Joint;
      head, tail, addChildToThis := head0, tail0, pending0;
      if addChildToThis >= 0 {
        AddChild(addChildToThis, newHead);
        addChildToThis := -1;
      }
      if skip {
        if tail == -1 {
          head := NewNode(END_NODE);
          tail := head;
        }
        addChildToThis := tail;
      }
      if loop {
        AddChild(newTail, newHead);
      }
      if head == -1 {
        head, tail := newHead, newTail;
      } else {
        AddChild(tail, newHead);
        tail := newTail;
      }
    }

    /** A group: the list inside, up to the parenthesis that closes it. */
    method ParseGroup(s: string, it0: nat, len0: nat)
      returns (e: Option<ParseError>, it: nat, len: nat, newHead: int, newTail: int, ghost body: Body)
      requires it0 + len0 <= |s| && len0 > 0 && s[it0] == '('
      modifies this`nodes
      ensures old(nodes) <= nodes && it + len == it0 + len0
      ensures match ParseBody(Text(s, it0, len0))
              case Bad(x) => e == Some(x)
              case Ok(v, rest) =>
                && e == None && body == v && len < len0 && Text(s, it, len) == rest
                && BodyBuilt(old(nodes), nodes, newHead, newTail, v)
      decreases len0, 0
    {
      hide Fragment, BodyFragment, Cells, LayItems, Close, Range, Text, ParseBody, ParsePattern, CloseAt;
      ghost var here := Text(s, it0, len0);
      TextStart(s, it0, len0);
      GroupBody(here);
      e, it, len, newHead, newTail, body := None, it0, len0, -1, -1, Single(Any);
      var pLen := FindParenthesisEnd(s, it, len);
      if pLen <= 0 {
        e := if pLen < 0 then Some(UnclosedParenthesis) else Some(EmptyCapture);
        return;
      }
      TextTail(s, it, len, 1);
      TextHead(s, it + 1, len - 1, pLen);
      assert here[1..1 + pLen] == here[1..][..pLen];
      ghost var items;
      e, newHead, newTail, items := ParsePat(s, it + 1, pLen);
      if e.Some? {
        e := if e == Some(EmptyPattern) then Some(EmptyCapture) else e;
        return;
      }
      body := Group(items);
      GroupFragment(nodes, Range(|old(nodes)|, |nodes|), newHead, newTail, items);
      TextTail(s, it, len, pLen + 2);
      it, len := it + pLen + 2, len - (pLen + 2);
    }

    /** The head of `parsePat`'s loop: one group or one atom. */
    method ParseOneBody(s: string, it0: nat, len0: nat)
      returns (e: Option<ParseError>, it: nat, len: nat, newHead: int, newTail: int, ghost body: Body)
      requires it0 + len0 <= |s| && len0 > 0
      modifies this`nodes
      ensures old(nodes) <= nodes && it + len == it0 + len0
      ensures match ParseBody(Text(s, it0, len0))
              case Bad(x) => e == Some(x)
              case Ok(v, rest) =>
                && e == None && body == v && len < len0 && Text(s, it, len) == rest
                && BodyBuilt(old(nodes), nodes, newHead, newTail, v)
      decreases len0, 1
    {
      hide BodyFragment, Cells, Text, ParseAtom, ParsePattern, CloseAt;
      TextStart(s, it0, len0);
      if s[it0] == '(' {
        hide ParseBody, BodyBuilt;
        e, it, len, newHead, newTail, body := ParseGroup(s, it0, len0);
      } else {
        newHead, newTail, body := -1, -1, Single(Any);
        e, it, len, newHead := ParseNode(s, it0, len0);
        if e.Some? {
          return;
        }
        newTail := newHead;
        body := Single(AtomOf(nodes[newHead]));
        AtomFragment(nodes, newHead);
        CellsOfAtom(old(nodes), nodes);
        assert Range(|old(nodes)|, |nodes|) == {newHead as nat};
      }
    }

    /** The end of `parsePat`: a pending skip source needs an end node to skip to. */
    method CloseOff(head: nat, tail0: nat, addChildToThis: int, ghost older: Graph, ghost items: seq<Item>)
      returns (tail: nat)
      requires items != [] && PartBuilt(older, nodes, head, tail0, addChildToThis, items)
      modifies this`nodes
      ensures older <= nodes && Fragment(nodes, Range(|older|, |nodes|), head, tail, items)
      ensures Laid(Cells(nodes), head, tail, -1) == Close(LayItems(Cells(older), items))
    {
      hide Building, Fragment, WithEdge, Cells, Joint, LayItems;
      tail := tail0;
      ghost var g, s := nodes, Range(|older|, |nodes|);
      BuildingShape(g, s, head, tail, addChildToThis, items);
      if addChildToThis >= 0 {
        assert addChildToThis in Pending(addChildToThis);
        var end := NewNode(END_NODE);
        AddChild(tail, end);
        AddChild(addChildToThis, end);
        EndLinked(g, s, head, tail, addChildToThis, items);
        StartAlike(older, g, nodes);
        assert s + {end} == Range(|older|, |nodes|);
        tail := end;
      } else {
        FinishPlain(nodes, s, head, tail, items);
      }
    }

    /** `parsePat`: one list of items, up to the end of the text. */
    method ParsePat(s: string, it0: nat, len0: nat)
      returns (e: Option<ParseError>, head: int, tail: int, ghost items: seq<Item>)
      requires it0 + len0 <= |s|
      modifies this`nodes
      ensures old(nodes) <= nodes
      ensures match ParsePattern(Text(s, it0, len0))
              case Bad(x) => e == Some(x) && head == -1 && tail == -1
              case Ok(v, _) =>
                && e == None && items == v && head >= 0 && tail >= 0
                && Fragment(nodes, Range(|old(nodes)|, |nodes|), head, tail, items)
                && Laid(Cells(nodes), head, tail, -1) == Close(LayItems(Cells(old(nodes)), v))
      decreases len0, 2
    {
      hide PartBuilt, Fragment, Cells, LayItems, Close, LinkOn, ItemAdded, BodyBuilt;
      hide ParseBody, ParseItems, ParsePattern, Prepend, Text, IsSkip, IsLoop, AfterQuantifier;
      var it: nat, len: nat := it0, len0;
      head, tail, e := -1, -1, None;
      var addChildToThis := -1;
      ghost var text := Text(s, it0, len0);
      items := [];
      PrependMore([], Item(Single(Any), false, false), ParseItems(text));
      NothingBuilt(nodes);
      while len > 0
        invariant it + len == it0 + len0
        invariant ParseItems(text) == Prepend(items, ParseItems(Text(s, it, len)))
        invariant PartBuilt(old(nodes), nodes, head, tail, addChildToThis, items)
        decreases len
      {
        ghost var before := nodes;
        ghost var done := items;
        PartShape(old(nodes), before, head, tail, addChildToThis, done);
        TextStart(s, it, len);
        FirstItem(Text(s, it, len));
        var e', newHead, newTail;
        ghost var body;
        e', it, len, newHead, newTail, body := ParseOneBody(s, it, len);
        if e'.Some? {
          PrependNone(done, e'.value);
          PatternOfError(text, e'.value);
          head, tail, e := -1, -1, e';
          return;
        }
        BuiltShape(before, nodes, newHead, newTail, body);
        Quantifier(s, it, len);

        var flagSkip := len > 0 && (s[it] == '?' || s[it] == '*' || s[it] == '-');
        var flagLoop := len > 0 && (s[it] == '*' || s[it] == '-' || s[it] == '+');
        ghost var item := Item(body, flagSkip, flagLoop);
        ghost var g, head0, tail0, pending0 := nodes, head, tail, addChildToThis;
        head, tail, addChildToThis := LinkItem(head, tail, addChildToThis, newHead, newTail, flagSkip, flagLoop);
        TurnKeeps(old(nodes), before, g, head0, tail0, pending0, newHead, newTail, done, item,
                  nodes, head, tail, addChildToThis);
        items := done + [item];
        if flagSkip || flagLoop {
          it, len := it + 1, len - 1;
        }
        PrependMore(done, item, ParseItems(Text(s, it, len)));
      }
      NoItems(s, it, items);
      PatternOfItems(text, items);
      PartShape(old(nodes), nodes, head, tail, addChildToThis, items);
      if head == -1 {
        e := Some(EmptyPattern);
        return;
      }
      tail := CloseOff(head, tail, addChildToThis, old(nodes), items);
    }

    /** `compile`: strips the anchors, parses the rest, and makes sure that a path can stop at the tail. */
    method Compile(text: string) returns (ok: bool)
      modifies this
      ensures anchoredStart == HasStartAnchor(text) && anchoredEnd == HasEndAnchor(text)
      ensures match ParsePattern(Core(text))
              case Bad(x) => !ok && err == Some(x) && root == -1
              case Ok(items, _) => ok && err == None && root >= 0 && Compiled(nodes, root, items)
                                   && Cells(nodes) == LayPattern(items).cells && root == LayPattern(items).head
    {
      hide Fragment, Compiled, Cells, Close, LayItems, EndLoop, ParsePattern;
      nodes, anchoredStart, anchoredEnd := [], false, false;
      var it: nat, len: nat := 0, |text|;
      if len > 0 && text[it] == '^' {
        anchoredStart := true;
        it, len := it + 1, len - 1;
      }
      if len > 0 && text[it + len - 1] == '$' {
        anchoredEnd := true;
        len := len - 1;
      }
      assert Text(text, it, len) == Core(text);
      ghost var items;
      var e, tail;
      e, root, tail, items := ParsePat(text, it, len);
      err := e;
      if e.Some? {
        return false;
      }
      assert Laid(Cells(nodes), root, tail, -1) == Close(LayItems([], items)) by {
        assert Cells([]) == [];
      }
      EndLoopingTail(root, tail, items);
      EndLoopHead(Close(LayItems([], items)));
      ok := true;
    }

    method EndLoopingTail(head: nat, tail: nat, ghost items: seq<Item>)
      requires Fragment(nodes, Range(0, |nodes|), head, tail, items)
      modifies this`nodes
      ensures Compiled(nodes, head, items)
      ensures Cells(nodes) == EndLoop(Laid(Cells(old(nodes)), head, tail, -1)).cells
    {
      hide Linked;
      ghost var s := Range(0, |nodes|);
      if nodes[tail].next != [] {
        ghost var g := nodes;
        var end := NewNode(Node(EndNode, false, []));
        LinkedNothing(g, nodes, s, end);
        LinkedNothing(g, nodes, {}, end);
        EdgeAdded(g, nodes, s, {}, {}, {}, tail, end);
        AddChild(tail, end);
        assert {} + {tail} == {tail};
        FinishLooping(g, nodes, s, end, head, tail, items);
        assert CompiledAs(nodes, s + {end}, head, end, items);
      } else {
        assert CompiledAs(nodes, s, head, tail, items);
      }
    }
  }

  predicate HasStartAnchor(text: string) {
    text != [] && text[0] == '^'
  }

  function AfterStart(text: string): string {
    if HasStartAnchor(text) then text[1..] else text
  }

  predicate HasEndAnchor(text: string) {
    var rest := AfterStart(text);
    rest != [] && rest[|rest| - 1] == '$'
  }

  /** The text between the anchors. A closing `$` counts as an anchor even when it is escaped. */
  function Core(text: string): string {
    var rest := AfterStart(text);
    if HasEndAnchor(text) then rest[..|rest| - 1] else rest
  }

  ghost predicate CompiledAs(g: Graph, s: set<nat>, root: nat, leaf: nat, items: seq<Item>) {
    Fragment(g, s, root, leaf, items) && leaf < |g| && g[leaf].next == []
  }

  /** Every path from the root to the one node without children spells a compiled word, and the other way round. */
  ghost predicate Compiled(g: Graph, root: nat, items: seq<Item>) {
    exists s, leaf :: CompiledAs(g, s, root, leaf, items)
  }
}
