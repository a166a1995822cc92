/** `Matcher::matches` and `Matcher::next` of src/Pattern.cpp: backtracking with an explicit stack. */
module Matcher {
  import opened Chars
  import opened PatternAtoms
  import opened PatternGraph
  import opened Pattern

  // One step.

  function PassIf(ok: bool, it: nat, len: nat): Stepped {
    if ok then Go(it, len) else Fail
  }

  /** The `matches` method of each node class. A range node whose minimum test fails does not advance, and the node
      of a dot, which only counts the length down, never does. */
  function Visit(n: Node, text: string, it: nat, len: nat): (r: Stepped)
    requires it + len <= |text|
    ensures r.Go? ==> it <= r.it && r.it + r.len <= it + len
    ensures r.Go? && n.kind != EndNode ==> r.len < len
    ensures n.kind == EndNode ==> r == Go(it, len)
  {
    if n.kind == EndNode then Go(it, len)
    else if len == 0 then Fail
    else
      var c := text[it];
      match n.kind
      case CharNode(chr) => PassIf((c == chr) != n.inverted, it + 1, len - 1)
      case CharRange(lo, hi) =>
        if Signed(c) < Signed(lo) then PassIf(n.inverted, it, len - 1)
        else PassIf((Signed(c) <= Signed(hi)) != n.inverted, it + 1, len - 1)
      case MultiRange(bounds) => PassIf(InBounds(bounds, c) != n.inverted, it + 1, len - 1)
      case MultiChar(chars) => PassIf((c in chars) != n.inverted, it + 1, len - 1)
      case AnyNode => Go(it, len - 1)
  }

  lemma VisitIsAtomStep(n: Node, text: string, it: nat, len: nat)
    requires it + len <= |text| && n.kind != EndNode && WellMade(n)
    ensures Visit(n, text, it, len) == AtomStep(AtomOf(n), text, it, len)
  {
    if len > 0 {
      var c := text[it];
      match n.kind {
        case CharNode(chr) => OneBound(chr, chr, c);
        case CharRange(lo, hi) =>
          OneBound(lo, hi, c);
          LowestIsLeast(c);
        case MultiRange(bounds) =>
        case MultiChar(chars) => ListedChars(chars, c);
        case AnyNode =>
      }
    }
  }

  lemma LowestIsLeast(c: char)
    ensures Signed(LOWEST) <= Signed(c)
  {
  }

  // The loop, turn by turn.

  /** A part of the graph that no edge leaves, and the text to match. */
  datatype Setting = Setting(g: Graph, nodes: set<nat>, text: string) {
    ghost predicate Valid() {
      Closed(g, nodes)
    }

    ghost predicate At(n: nat, it: nat, len: nat) {
      Valid() && n in nodes && n < |g| && it + len <= |text|
    }

    /** The children of a node, in order. */
    function Next(n: nat): (next: seq<nat>)
      requires n < |g|
      ensures Valid() && n in nodes ==> forall k :: 0 <= k < |next| ==> next[k] in nodes && next[k] < |g|
    {
      assert forall k :: 0 <= k < |g[n].next| ==> g[n].next[k] in g[n].next;
      g[n].next
    }

    function Step(n: nat, it: nat, len: nat): Stepped
      requires n < |g| && it + len <= |text|
    {
      Visit(g[n], text, it, len)
    }
  }

  datatype StackEntry = StackEntry(node: nat, it: nat, remainingLen: nat, childId: nat)

  /** An entry always has at least one child left to try. */
  ghost predicate GoodEntry(v: Setting, e: StackEntry) {
    v.At(e.node, e.it, e.remainingLen) && e.childId + 1 < |v.Next(e.node)|
  }

  ghost predicate GoodStack(v: Setting, stack: seq<StackEntry>) {
    forall i :: 0 <= i < |stack| ==> GoodEntry(v, stack[i])
  }

  /** The loop's variables at the head of the loop, or its result: where the match ends, -1 if nowhere. */
  datatype State = Looking(node: nat, it: nat, len: nat, stack: seq<StackEntry>) | Halted(end: int)

  ghost predicate Ready(v: Setting, s: State) {
    v.Valid() && (s.Looking? ==> v.At(s.node, s.it, s.len) && GoodStack(v, s.stack))
  }

  /** An entry is kept while it has children left to try. */
  function With(stack: seq<StackEntry>, e: StackEntry, children: nat): seq<StackEntry> {
    if e.childId + 1 < children then stack + [e] else stack
  }

  /** On from a node that has been passed: to its first child, or to the end of the match. */
  function Down(v: Setting, n: nat, it: nat, len: nat, stack: seq<StackEntry>): (s: State)
    requires v.At(n, it, len) && GoodStack(v, stack)
    ensures Ready(v, s)
  {
    var next := v.Next(n);
    if next == [] then Halted(it) else Looking(next[0], it, len, With(stack, StackEntry(n, it, len, 0), |next|))
  }

  /** Back from a node that has failed: to the next child of the last entry, or to the end of the search. */
  function Back(v: Setting, stack: seq<StackEntry>): (s: State)
    requires v.Valid() && GoodStack(v, stack)
    ensures Ready(v, s)
  {
    if stack == [] then Halted(-1)
    else
      var below, e := stack[..|stack| - 1], stack[|stack| - 1];
      assert GoodEntry(v, e);
      var next := v.Next(e.node);
      Looking(next[e.childId + 1], e.it, e.remainingLen, With(below, e.(childId := e.childId + 1), |next|))
  }

  function Turn(v: Setting, s: State): (s': State)
    requires Ready(v, s)
    ensures Ready(v, s')
  {
    match s
    case Halted(_) => s
    case Looking(n, it, len, stack) =>
      match v.Step(n, it, len)
      case Fail => Back(v, stack)
      case Go(it', len') => Down(v, n, it', len', stack)
  }

  function Turns(v: Setting, s: State, m: nat): (s': State)
    requires Ready(v, s)
    ensures Ready(v, s')
    decreases m
  {
    if m == 0 then s else Turns(v, Turn(v, s), m - 1)
  }

  lemma {:induction false} TurnsAdd(v: Setting, s: State, a: nat, b: nat)
    requires Ready(v, s)
    ensures Turns(v, s, a + b) == Turns(v, Turns(v, s, a), b)
    decreases a
  {
    if a > 0 {
      TurnsAdd(v, Turn(v, s), a - 1, b);
    }
  }

  lemma {:induction false} HaltedStays(v: Setting, s: State, a: nat, b: nat)
    requires Ready(v, s) && a <= b && Turns(v, s, a).Halted?
    ensures Turns(v, s, b) == Turns(v, s, a)
    decreases b - a
  {
    if a < b {
      TurnsAdd(v, s, a, 1);
      assert Turns(v, Turns(v, s, a), 1) == Turns(v, Turn(v, Turns(v, s, a)), 0);
      HaltedStays(v, s, a + 1, b);
    }
  }

  ghost predicate Ends(v: Setting, s: State)
    requires Ready(v, s)
  {
    exists m: nat :: Turns(v, s, m).Halted?
  }

  /** What the loop returns, where it ends. */
  ghost function Final(v: Setting, s: State): int
    requires Ready(v, s) && Ends(v, s)
  {
    var m: nat :| Turns(v, s, m).Halted?;
    Turns(v, s, m).end
  }

  lemma FinalIs(v: Setting, s: State, m: nat)
    requires Ready(v, s) && Turns(v, s, m).Halted?
    ensures Ends(v, s) && Final(v, s) == Turns(v, s, m).end
  {
    var k: nat :| Turns(v, s, k).Halted? && Final(v, s) == Turns(v, s, k).end;
    HaltedStays(v, s, if k < m then k else m, if k < m then m else k);
  }

  function StartAt(v: Setting, root: nat, p: nat): (s: State)
    requires v.Valid() && root in v.nodes && p <= |v.text|
    ensures Ready(v, s)
  {
    Looking(root, p, |v.text| - p, [])
  }

  /** Where the match that starts at p ends, -1 if there is none. */
  ghost function MatchAt(v: Setting, root: nat, p: nat): int
    requires v.Valid() && root in v.nodes && p <= |v.text| && Ends(v, StartAt(v, root, p))
  {
    Final(v, StartAt(v, root, p))
  }

  lemma LastTurn(v: Setting, s: State) returns (m: nat)
    requires Ready(v, s) && Ends(v, s)
    ensures Turns(v, s, m).Halted?
  {
    m :| Turns(v, s, m).Halted?;
  }

  lemma NoTurns(v: Setting, s: State)
    requires Ready(v, s)
    ensures Turns(v, s, 0) == s
  {
  }

  lemma StillTurning(v: Setting, s: State, k: nat, m: nat)
    requires Ready(v, s) && Turns(v, s, k).Looking? && Turns(v, s, m).Halted?
    ensures k < m && Turns(v, s, k + 1) == Turn(v, Turns(v, s, k))
  {
    if m <= k {
      HaltedStays(v, s, m, k);
    }
    TurnsAdd(v, s, k, 1);
    assert Turns(v, Turns(v, s, k), 1) == Turns(v, Turn(v, Turns(v, s, k)), 0);
  }

  // Recursive backtracking, the reference for the loop.

  datatype Outcome = Unfinished | Failed | Found(end: nat)

  /** Depth first, children in order: where the first accepting path ends. Unfinished if some path that was tried
      is longer than depth. */
  ghost function Search(v: Setting, n: nat, it: nat, len: nat, depth: nat): (r: Outcome)
    requires v.At(n, it, len)
    ensures r.Found? ==> it <= r.end <= |v.text|
    decreases depth, 0, 0
  {
    if depth == 0 then Unfinished
    else match v.Step(n, it, len)
      case Fail => Failed
      case Go(it', len') => if v.Next(n) == [] then Found(it') else SearchFrom(v, n, 0, it', len', depth - 1)
  }

  /** The same, over the children of n from the k-th on. */
  ghost function SearchFrom(v: Setting, n: nat, k: nat, it: nat, len: nat, depth: nat): (r: Outcome)
    requires v.At(n, it, len) && k <= |v.Next(n)|
    ensures r.Found? ==> it <= r.end <= |v.text|
    decreases depth, 1, |v.Next(n)| - k
  {
    if k == |v.Next(n)| then Failed
    else match Search(v, v.Next(n)[k], it, len, depth)
      case Failed => SearchFrom(v, n, k + 1, it, len, depth)
      case Unfinished => Unfinished
      case Found(end) => Found(end)
  }

  lemma {:induction false} Deeper(v: Setting, n: nat, it: nat, len: nat, depth: nat, depth': nat)
    requires v.At(n, it, len) && depth <= depth' && Search(v, n, it, len, depth) != Unfinished
    ensures Search(v, n, it, len, depth') == Search(v, n, it, len, depth)
    decreases depth, 0, 0
  {
    var step := v.Step(n, it, len);
    if step.Go? && v.Next(n) != [] {
      DeeperFrom(v, n, 0, step.it, step.len, depth - 1, depth' - 1);
    }
  }

  lemma {:induction false} DeeperFrom(v: Setting, n: nat, k: nat, it: nat, len: nat, depth: nat, depth': nat)
    requires v.At(n, it, len) && k <= |v.Next(n)| && depth <= depth' &&
             SearchFrom(v, n, k, it, len, depth) != Unfinished
    ensures SearchFrom(v, n, k, it, len, depth') == SearchFrom(v, n, k, it, len, depth)
    decreases depth, 1, |v.Next(n)| - k
  {
    if k < |v.Next(n)| {
      Deeper(v, v.Next(n)[k], it, len, depth, depth');
      if Search(v, v.Next(n)[k], it, len, depth) == Failed {
        DeeperFrom(v, n, k + 1, it, len, depth, depth');
      }
    }
  }

  /** What a finished search makes of the stack below it. */
  function After(v: Setting, r: Outcome, stack: seq<StackEntry>): (s: State)
    requires v.Valid() && GoodStack(v, stack) && r != Unfinished
    ensures Ready(v, s)
  {
    if r.Found? then Halted(r.end) else Back(v, stack)
  }

  /** With the k-th child of n: the state in which the loop has just gone down to it. */
  function Child(v: Setting, n: nat, k: nat, it: nat, len: nat, stack: seq<StackEntry>): (s: State)
    requires v.At(n, it, len) && GoodStack(v, stack) && k < |v.Next(n)|
    ensures Ready(v, s) && s.Looking?
  {
    Looking(v.Next(n)[k], it, len, With(stack, StackEntry(n, it, len, k), |v.Next(n)|))
  }

  /** Rolling back into n goes on with its next child, or further back if there is none. */
  lemma BackToSibling(v: Setting, n: nat, k: nat, it: nat, len: nat, stack: seq<StackEntry>)
    requires v.At(n, it, len) && GoodStack(v, stack) && k < |v.Next(n)|
    ensures Back(v, Child(v, n, k, it, len, stack).stack)
         == if k + 1 < |v.Next(n)| then Child(v, n, k + 1, it, len, stack) else Back(v, stack)
  {
    if k + 1 < |v.Next(n)| {
      var e := StackEntry(n, it, len, k);
      assert (stack + [e])[..|stack + [e]| - 1] == stack;
    }
  }

  /** The loop does what the search does, and leaves the stack below alone. */
  lemma {:induction false} SearchRuns(v: Setting, n: nat, it: nat, len: nat, depth: nat, stack: seq<StackEntry>)
    returns (m: nat)
    requires v.At(n, it, len) && GoodStack(v, stack) && Search(v, n, it, len, depth) != Unfinished
    ensures m >= 1
    ensures Turns(v, Looking(n, it, len, stack), m) == After(v, Search(v, n, it, len, depth), stack)
    decreases depth, 0, 0
  {
    hide Visit;
    var s := Looking(n, it, len, stack);
    var step := v.Step(n, it, len);
    m := 1;
    NoTurns(v, Turn(v, s));
    if step.Go? && v.Next(n) != [] {
      m := SearchFromRuns(v, n, 0, step.it, step.len, depth - 1, stack);
      assert Turn(v, s) == Child(v, n, 0, step.it, step.len, stack);
      m := m + 1;
    }
  }

  lemma {:induction false} SearchFromRuns(v: Setting, n: nat, k: nat, it: nat, len: nat, depth: nat,
                                          stack: seq<StackEntry>)
    returns (m: nat)
    requires v.At(n, it, len) && GoodStack(v, stack) && k < |v.Next(n)| &&
             SearchFrom(v, n, k, it, len, depth) != Unfinished
    ensures m >= 1
    ensures Turns(v, Child(v, n, k, it, len, stack), m) == After(v, SearchFrom(v, n, k, it, len, depth), stack)
    decreases depth, 1, |v.Next(n)| - k
  {
    hide Turns, Back, With;
    var s := Child(v, n, k, it, len, stack);
    m := SearchRuns(v, v.Next(n)[k], it, len, depth, s.stack);
    if Search(v, v.Next(n)[k], it, len, depth) == Failed {
      BackToSibling(v, n, k, it, len, stack);
      if k + 1 < |v.Next(n)| {
        var m' := SearchFromRuns(v, n, k + 1, it, len, depth, stack);
        TurnsAdd(v, s, m, m');
        m := m + m';
      }
    }
  }

  /** And where the loop ends, so does the search. */
  lemma {:induction false} EndSearched(v: Setting, n: nat, it: nat, len: nat, stack: seq<StackEntry>, m: nat)
    returns (depth: nat)
    requires v.At(n, it, len) && GoodStack(v, stack) && Turns(v, Looking(n, it, len, stack), m).Halted?
    ensures Search(v, n, it, len, depth) != Unfinished
    decreases m, 0
  {
    hide Visit;
    depth := 1;
    var s := Looking(n, it, len, stack);
    var step := v.Step(n, it, len);
    if step.Go? && v.Next(n) != [] {
      assert Turn(v, s) == Child(v, n, 0, step.it, step.len, stack);
      depth := EndSearchedFrom(v, n, 0, step.it, step.len, stack, m - 1);
      depth := depth + 1;
    }
  }

  lemma {:induction false} EndSearchedFrom(v: Setting, n: nat, k: nat, it: nat, len: nat, stack: seq<StackEntry>,
                                           m: nat)
    returns (depth: nat)
    requires v.At(n, it, len) && GoodStack(v, stack) && k < |v.Next(n)|
    requires Turns(v, Child(v, n, k, it, len, stack), m).Halted?
    ensures SearchFrom(v, n, k, it, len, depth) != Unfinished
    decreases m, 1
  {
    hide Turns, Back, With;
    var child, s := v.Next(n)[k], Child(v, n, k, it, len, stack);
    depth := EndSearched(v, child, it, len, s.stack, m);
    if Search(v, child, it, len, depth) == Failed && k + 1 < |v.Next(n)| {
      var m' := SearchRuns(v, child, it, len, depth, s.stack);
      BackToSibling(v, n, k, it, len, stack);
      StillTurning(v, s, m', m);
      TurnsAdd(v, s, m', m - m');
      var depth' := EndSearchedFrom(v, n, k + 1, it, len, stack, m - m');
      var both := depth + depth';
      Deeper(v, child, it, len, depth, both);
      DeeperFrom(v, n, k + 1, it, len, depth', both);
      depth := both;
    }
  }

  function Result(r: Outcome): int {
    if r.Found? then r.end else -1
  }

  ghost predicate Searched(v: Setting, n: nat, it: nat, len: nat)
    requires v.At(n, it, len)
  {
    exists depth: nat :: Search(v, n, it, len, depth) != Unfinished
  }

  /** The loop ends, whatever its stack is rolled back to, exactly where the search does, and with its result. */
  lemma EndsIffSearched(v: Setting, n: nat, it: nat, len: nat)
    requires v.At(n, it, len)
    ensures Ends(v, Looking(n, it, len, [])) <==> Searched(v, n, it, len)
    ensures forall depth: nat :: Search(v, n, it, len, depth) != Unfinished ==>
              Ends(v, Looking(n, it, len, []))
              && Final(v, Looking(n, it, len, [])) == Result(Search(v, n, it, len, depth))
  {
    var s := Looking(n, it, len, []);
    hide Search, Turns, Final, Visit;
    forall depth: nat | Search(v, n, it, len, depth) != Unfinished
      ensures Ends(v, s) && Final(v, s) == Result(Search(v, n, it, len, depth))
    {
      var m := SearchRuns(v, n, it, len, depth, []);
      FinalIs(v, s, m);
    }
    if Ends(v, s) {
      var m := LastTurn(v, s);
      var depth := EndSearched(v, n, it, len, [], m);
    }
  }

  // The loop itself.

  lemma MatchInText(v: Setting, root: nat, p: nat)
    requires v.Valid() && root in v.nodes && p <= |v.text| && Ends(v, StartAt(v, root, p))
    ensures var r := MatchAt(v, root, p); r == -1 || p <= r <= |v.text|
  {
    var len := |v.text| - p;
    EndsIffSearched(v, root, p, len);
    var depth: nat :| Search(v, root, p, len, depth) != Unfinished;
  }

  /** `Matcher::matches`: where the turns come to an end, so does the loop, with the same result. */
  method Matches(ghost v: Setting, g: Graph, root: nat, text: string, strPos: nat) returns (l: int)
    requires v.Valid() && v.g == g && v.text == text && root in v.nodes && strPos <= |text|
    requires Ends(v, StartAt(v, root, strPos))
    ensures var r := MatchAt(v, root, strPos); l == if r >= 0 then r - strPos else -1
    ensures l >= -1 && strPos + l <= |text| && (l < 0 <==> MatchAt(v, root, strPos) < 0)
  {
    hide Visit, Closed, Turns, Ends, Final;
    MatchInText(v, root, strPos);
    var stack: seq<StackEntry> := [];
    var node, it: nat, remLen: nat := root, strPos, |text| - strPos;
    ghost var start := StartAt(v, root, strPos);
    ghost var k: nat := 0;
    ghost var m := LastTurn(v, start);
    NoTurns(v, start);
    while true
      invariant v.At(node, it, remLen) && GoodStack(v, stack)
      invariant Turns(v, start, k) == Looking(node, it, remLen, stack)
      decreases m - k
    {
      StillTurning(v, start, k, m);
      k := k + 1;
      var stepped := Visit(g[node], text, it, remLen);
      if stepped.Go? {
        it, remLen := stepped.it, stepped.len;
        if |g[node].next| <= 0 {
          break;
        }
        if |g[node].next| > 1 {
          stack := stack + [StackEntry(node, it, remLen, 0)];
        }
        node := g[node].next[0];
      } else {
        if stack == [] {
          FinalIs(v, start, k);
          return -1;
        }
        var last := |stack| - 1;
        assert GoodEntry(v, stack[last]);
        node, it, remLen := stack[last].node, stack[last].it, stack[last].remainingLen;
        var cid := stack[last].childId + 1;
        if cid + 1 >= |g[node].next| {
          stack := stack[..last];
        } else {
          stack := stack[..last] + [stack[last].(childId := cid)];
        }
        node := g[node].next[cid];
      }
    }
    FinalIs(v, start, k);
    l := it - strPos;
  }

  // `Matcher::next`.

  /** The loop ends at every position that one call of `next` tries. */
  ghost predicate NextEnds(v: Setting, root: nat, anchoredStart: bool, from: nat)
    requires v.Valid() && root in v.nodes && from <= |v.text|
    decreases |v.text| - from
  {
    if anchoredStart then from > 0 || Ends(v, StartAt(v, root, 0))
    else from == |v.text|
         || (Ends(v, StartAt(v, root, from)) && (MatchAt(v, root, from) >= 0 || NextEnds(v, root, false, from + 1)))
  }

  /** The first position from `from` on, short of the end, where the pattern matches; the end if there is none. */
  ghost function FirstHit(v: Setting, root: nat, from: nat): (p: nat)
    requires v.Valid() && root in v.nodes && from <= |v.text| && NextEnds(v, root, false, from)
    ensures from <= p <= |v.text|
    ensures p < |v.text| ==> Ends(v, StartAt(v, root, p)) && MatchAt(v, root, p) >= 0
    ensures forall q :: from <= q < p ==> Ends(v, StartAt(v, root, q)) && MatchAt(v, root, q) < 0
    decreases |v.text| - from
  {
    if from == |v.text| || MatchAt(v, root, from) >= 0 then from else FirstHit(v, root, from + 1)
  }

  lemma HitHere(v: Setting, root: nat, p: nat)
    requires v.Valid() && root in v.nodes && p < |v.text| && NextEnds(v, root, false, p)
    ensures Ends(v, StartAt(v, root, p))
    ensures MatchAt(v, root, p) >= 0 ==> FirstHit(v, root, p) == p
    ensures MatchAt(v, root, p) < 0 ==>
            NextEnds(v, root, false, p + 1) && FirstHit(v, root, p) == FirstHit(v, root, p + 1)
  {
  }

  datatype NextResult = Hit(start: nat, end: nat) | Miss(pos: nat)

  /** One call of `next` from position `from`. Without a start anchor the end of the text is never tried. With an end
      anchor only the first match found counts: no later start and no other path is tried when it stops short. */
  ghost function NextSpec(v: Setting, root: nat, anchoredStart: bool, anchoredEnd: bool, from: nat): NextResult
    requires v.Valid() && root in v.nodes && from <= |v.text| && NextEnds(v, root, anchoredStart, from)
  {
    if anchoredStart && from > 0 then Miss(from)
    else
      var p := if anchoredStart then 0 else FirstHit(v, root, from);
      var r := if !anchoredStart && p == |v.text| then -1 else MatchAt(v, root, p);
      if r < 0 || (anchoredEnd && r < |v.text|) then Miss(p) else Hit(p, r)
  }

  /** Which calls find what: the first start at which the pattern matches at all, or the start of the text alone; and
      if it has to, that match ends where the text does. A call that finds nothing without a start anchor leaves the
      position at that start, or at the end of the text if there is none. */
  lemma NextIff(v: Setting, root: nat, anchoredStart: bool, anchoredEnd: bool, from: nat, p: nat, e: nat)
    requires v.Valid() && root in v.nodes && from <= |v.text| && NextEnds(v, root, anchoredStart, from)
    ensures NextSpec(v, root, anchoredStart, anchoredEnd, from) == Hit(p, e) <==>
            && (if anchoredStart then from == p == 0 else FirstMatch(v, root, from, p) && p < |v.text|)
            && Ends(v, StartAt(v, root, p)) && MatchAt(v, root, p) == e && (anchoredEnd ==> e >= |v.text|)
    ensures NextSpec(v, root, anchoredStart, anchoredEnd, from) == Miss(p) ==>
            if anchoredStart then p == from else FirstMatch(v, root, from, p)
  {
    hide Ends, MatchAt, StartAt;
    if !anchoredStart {
      assert FirstMatch(v, root, from, FirstHit(v, root, from));
    }
  }

  /** The pattern matches at p, or p is the end of the text, and it matches nowhere between `from` and p. */
  ghost predicate FirstMatch(v: Setting, root: nat, from: nat, p: nat)
    requires v.Valid() && root in v.nodes && from <= |v.text|
  {
    && from <= p <= |v.text|
    && (p < |v.text| ==> Ends(v, StartAt(v, root, p)) && MatchAt(v, root, p) >= 0)
    && forall q :: from <= q < p ==> Ends(v, StartAt(v, root, q)) && MatchAt(v, root, q) < 0
  }

  /** Some match from `from` on, among the positions that are tried, stops at the end of the text. */
  ghost predicate EndReached(v: Setting, root: nat, from: nat)
    requires v.Valid() && root in v.nodes && from <= |v.text|
  {
    exists q: nat :: MatchesToEnd(v, root, from, q)
  }

  ghost predicate MatchesToEnd(v: Setting, root: nat, from: nat, q: nat)
    requires v.Valid() && root in v.nodes && from <= |v.text|
  {
    from <= q < |v.text| && Ends(v, StartAt(v, root, q)) && MatchAt(v, root, q) == |v.text|
  }

  /** With an end anchor and no start anchor: a match that reaches the end is missed if and only if the first match,
      which starts no later, stops short of the end. */
  lemma EndMissedIff(v: Setting, root: nat, from: nat)
    requires v.Valid() && root in v.nodes && from <= |v.text| && NextEnds(v, root, false, from)
    ensures var p := FirstHit(v, root, from);
            && (NextSpec(v, root, false, true, from).Hit? <==> p < |v.text| && MatchAt(v, root, p) == |v.text|)
            && (NextSpec(v, root, false, true, from).Hit? ==> EndReached(v, root, from))
            && (EndReached(v, root, from) ==>
                  p < |v.text| && (NextSpec(v, root, false, true, from).Miss? <==> MatchAt(v, root, p) < |v.text|))
  {
    hide Ends, MatchAt, StartAt;
    var p := FirstHit(v, root, from);
    if p < |v.text| {
      MatchInText(v, root, p);
      assert MatchAt(v, root, p) == |v.text| ==> MatchesToEnd(v, root, from, p);
    }
  }

  // A hit that leaves the position where it is.

  function PosAfter(r: NextResult): nat {
    match r case Hit(_, end) => end case Miss(pos) => pos
  }

  lemma HitInText(v: Setting, root: nat, anchoredStart: bool, anchoredEnd: bool, from: nat)
    requires v.Valid() && root in v.nodes && from <= |v.text| && NextEnds(v, root, anchoredStart, from)
    ensures var r := NextSpec(v, root, anchoredStart, anchoredEnd, from);
            from <= PosAfter(r) <= |v.text| && (r.Hit? ==> from <= r.start <= r.end)
  {
    hide Ends, MatchAt, StartAt, FirstHit;
    if !(anchoredStart && from > 0) {
      var p := if anchoredStart then 0 else FirstHit(v, root, from);
      if anchoredStart || p < |v.text| {
        MatchInText(v, root, p);
      }
    }
  }

  /** One call after the other: r is the result of the k-th. */
  ghost predicate KthCall(v: Setting, root: nat, anchoredStart: bool, anchoredEnd: bool, from: nat, k: nat,
                          r: NextResult)
    requires v.Valid() && root in v.nodes && from <= |v.text|
    decreases k
  {
    && NextEnds(v, root, anchoredStart, from)
    && var first := NextSpec(v, root, anchoredStart, anchoredEnd, from);
       HitInText(v, root, anchoredStart, anchoredEnd, from);
       if k == 0 then r == first else KthCall(v, root, anchoredStart, anchoredEnd, PosAfter(first), k - 1, r)
  }

  /** Every later call returns the same hit if it is empty, and none does if it is not. */
  lemma SameHitIff(v: Setting, root: nat, anchoredStart: bool, anchoredEnd: bool, from: nat, k: nat)
    requires v.Valid() && root in v.nodes && from <= |v.text| && NextEnds(v, root, anchoredStart, from)
    requires NextSpec(v, root, anchoredStart, anchoredEnd, from).Hit? && k > 0
    ensures var hit := NextSpec(v, root, anchoredStart, anchoredEnd, from);
            KthCall(v, root, anchoredStart, anchoredEnd, from, k, hit) <==> hit.end == hit.start
  {
    hide Ends, MatchAt, StartAt, FirstHit, NextEnds;
    var hit := NextSpec(v, root, anchoredStart, anchoredEnd, from);
    HitInText(v, root, anchoredStart, anchoredEnd, from);
    if hit.end == hit.start {
      HitStays(v, root, anchoredStart, anchoredEnd, from);
      HitRepeats(v, root, anchoredStart, anchoredEnd, hit.end, k - 1);
    } else if KthCall(v, root, anchoredStart, anchoredEnd, hit.end, k - 1, hit) {
      LaterCalls(v, root, anchoredStart, anchoredEnd, hit.end, k - 1, hit);
    }
  }

  /** The call after an empty hit starts where that one did, and returns the same. */
  lemma HitStays(v: Setting, root: nat, anchoredStart: bool, anchoredEnd: bool, from: nat)
    requires v.Valid() && root in v.nodes && from <= |v.text| && NextEnds(v, root, anchoredStart, from)
    requires NextSpec(v, root, anchoredStart, anchoredEnd, from).Hit?
    ensures var hit := NextSpec(v, root, anchoredStart, anchoredEnd, from);
            hit.end == hit.start ==> hit.end <= |v.text| && NextEnds(v, root, anchoredStart, hit.end)
                                     && NextSpec(v, root, anchoredStart, anchoredEnd, hit.end) == hit
  {
    hide Ends, MatchAt, StartAt;
    if !anchoredStart {
      HitHere(v, root, FirstHit(v, root, from));
    }
  }

  lemma {:induction false} HitRepeats(v: Setting, root: nat, anchoredStart: bool, anchoredEnd: bool, from: nat, k: nat)
    requires v.Valid() && root in v.nodes && from <= |v.text| && NextEnds(v, root, anchoredStart, from)
    requires NextSpec(v, root, anchoredStart, anchoredEnd, from) == Hit(from, from)
    ensures KthCall(v, root, anchoredStart, anchoredEnd, from, k, Hit(from, from))
  {
    hide NextSpec, NextEnds;
    if k > 0 {
      HitRepeats(v, root, anchoredStart, anchoredEnd, from, k - 1);
    }
  }

  lemma {:induction false} LaterCalls(v: Setting, root: nat, anchoredStart: bool, anchoredEnd: bool, from: nat, k: nat,
                                      r: NextResult)
    requires v.Valid() && root in v.nodes && from <= |v.text| && r.Hit?
    requires KthCall(v, root, anchoredStart, anchoredEnd, from, k, r)
    ensures from <= r.start
    decreases k
  {
    hide NextSpec, NextEnds;
    HitInText(v, root, anchoredStart, anchoredEnd, from);
    if k > 0 {
      var first := NextSpec(v, root, anchoredStart, anchoredEnd, from);
      LaterCalls(v, root, anchoredStart, anchoredEnd, PosAfter(first), k - 1, r);
    }
  }

  class Matcher {
    const pat: Pattern
    const str: string
    var strPos: nat
    var starts: seq<nat>
    var ends: seq<nat>

    constructor (p: Pattern, s: string)
      ensures pat == p && str == s && strPos == 0 && starts == [] && ends == []
    {
      pat, str, strPos, starts, ends := p, s, 0, [], [];
    }

    method Next(ghost v: Setting) returns (ok: bool)
      requires v.Valid() && v.g == pat.nodes && v.text == str && pat.root >= 0 && pat.root in v.nodes
      requires strPos <= |str| && NextEnds(v, pat.root, pat.anchoredStart, strPos)
      modifies this
      ensures match NextSpec(v, pat.root, pat.anchoredStart, pat.anchoredEnd, old(strPos))
              case Hit(p, e) => ok && starts == [p] && ends == [e] && strPos == e
              case Miss(p) => !ok && starts == [] && ends == [] && strPos == p
      ensures strPos <= |str|
    {
      hide Setting.Valid, Ends, MatchAt, FirstHit, StartAt;
      starts, ends := [], [];
      var l := -1;
      if pat.anchoredStart {
        if strPos > 0 {
          return false;
        }
        l := Matches(v, pat.nodes, pat.root, str, strPos);
      } else {
        while strPos < |str|
          invariant l < 0 && strPos <= |str| && NextEnds(v, pat.root, false, strPos)
          invariant FirstHit(v, pat.root, strPos) == FirstHit(v, pat.root, old(strPos))
          invariant starts == [] && ends == []
        {
          HitHere(v, pat.root, strPos);
          l := Matches(v, pat.nodes, pat.root, str, strPos);
          if l >= 0 {
            break;
          }
          strPos := strPos + 1;
        }
      }
      if l < 0 {
        return false;
      }
      if pat.anchoredEnd && strPos + l < |str| {
        return false;
      }
      starts := starts + [strPos];
      strPos := strPos + l;
      ends := ends + [strPos];
      ok := true;
    }
  }
}
