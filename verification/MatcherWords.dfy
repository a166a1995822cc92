/** What the loop of `Matcher::matches` finds, in terms of the words of the pattern. */
module MatcherWords {
  import opened PatternLanguage
  import opened PatternAtoms
  import opened PatternGraph
  import opened PatternFragment
  import opened Pattern
  import opened Matcher

  // Accepting paths, as sequences of child numbers.

  /** Where the path that takes the children c ends; -1 if it is blocked or does not stop at a node without children. */
  ghost function Follow(v: Setting, n: nat, it: nat, len: nat, c: seq<nat>): (r: int)
    requires v.At(n, it, len)
    ensures r >= -1
    decreases |c|
  {
    match v.Step(n, it, len)
    case Fail => -1
    case Go(it', len') =>
      if v.Next(n) == [] then (if c == [] then it' else -1)
      else if c == [] || c[0] >= |v.Next(n)| then -1
      else Follow(v, v.Next(n)[c[0]], it', len', c[1..])
  }

  /** c comes no later than d in child order. */
  predicate NotAfter(c: seq<nat>, d: seq<nat>) {
    c == [] || (d != [] && (c[0] < d[0] || (c[0] == d[0] && NotAfter(c[1..], d[1..]))))
  }

  ghost predicate FirstAccepted(v: Setting, n: nat, it: nat, len: nat, r: Outcome, c: seq<nat>)
    requires v.At(n, it, len)
  {
    match r
    case Unfinished => true
    case Failed => forall d :: Follow(v, n, it, len, d) < 0
    case Found(end) => Follow(v, n, it, len, c) == end && forall d :: Follow(v, n, it, len, d) >= 0 ==> NotAfter(c, d)
  }

  predicate Earlier(k: nat, c: seq<nat>, j: nat, d: seq<nat>) {
    k < j || (k == j && NotAfter(c, d))
  }

  ghost predicate FirstAcceptedFrom(v: Setting, n: nat, k: nat, it: nat, len: nat, r: Outcome, first: nat, c: seq<nat>)
    requires v.At(n, it, len) && k <= |v.Next(n)|
  {
    match r
    case Unfinished => true
    case Failed => forall j, d | k <= j < |v.Next(n)| :: Follow(v, v.Next(n)[j], it, len, d) < 0
    case Found(end) =>
      && k <= first < |v.Next(n)| && Follow(v, v.Next(n)[first], it, len, c) == end
      && forall j, d | k <= j < |v.Next(n)| && Follow(v, v.Next(n)[j], it, len, d) >= 0 :: Earlier(first, c, j, d)
  }

  /** A finished search has found the first accepting path in child order, and has failed only if there is none. */
  lemma {:induction false} SearchFindsFirst(v: Setting, n: nat, it: nat, len: nat, depth: nat) returns (c: seq<nat>)
    requires v.At(n, it, len)
    ensures FirstAccepted(v, n, it, len, Search(v, n, it, len, depth), c)
    decreases depth, 0, 0
  {
    hide Visit;
    c := [];
    if depth > 0 {
      var step := v.Step(n, it, len);
      if step.Go? && v.Next(n) != [] {
        var k, c' := SearchFromFindsFirst(v, n, 0, step.it, step.len, depth - 1);
        c := [k] + c';
        assert c[1..] == c';
        forall d | Search(v, n, it, len, depth) != Unfinished && Follow(v, n, it, len, d) >= 0
          ensures Search(v, n, it, len, depth).Found? && NotAfter(c, d)
        {
          assert Follow(v, v.Next(n)[d[0]], step.it, step.len, d[1..]) >= 0;
          assert Search(v, n, it, len, depth).Found? ==> Earlier(k, c', d[0], d[1..]);
        }
      }
    }
  }

  lemma {:induction false} SearchFromFindsFirst(v: Setting, n: nat, k: nat, it: nat, len: nat, depth: nat)
    returns (first: nat, c: seq<nat>)
    requires v.At(n, it, len) && k <= |v.Next(n)|
    ensures FirstAcceptedFrom(v, n, k, it, len, SearchFrom(v, n, k, it, len, depth), first, c)
    decreases depth, 1, |v.Next(n)| - k
  {
    first, c := k, [];
    if k < |v.Next(n)| {
      var child := v.Next(n)[k];
      c := SearchFindsFirst(v, child, it, len, depth);
      if Search(v, child, it, len, depth) == Failed {
        first, c := SearchFromFindsFirst(v, n, k + 1, it, len, depth);
      }
    }
  }

  // Accepting paths, as paths of the graph.

  /** Following children from n is running the word of a path from n to a node without children. */
  lemma {:induction false} FollowIsPath(v: Setting, n: nat, it: nat, len: nat, c: seq<nat>) returns (p: seq<nat>)
    requires v.At(n, it, len) && AllWellMade(v.g, v.nodes)
    requires Follow(v, n, it, len, c) >= 0
    ensures p != [] && Path(v.g, v.nodes, n, p[|p| - 1], p) && v.Next(p[|p| - 1]) == []
    ensures Run(PathWord(v.g, p), v.text, it, len) == Follow(v, n, it, len, c)
    decreases |c|
  {
    hide Visit, Label, Run, Setting.Valid, AllWellMade;
    var step := v.Step(n, it, len);
    LonePathWord(v, n);
    if v.Next(n) == [] {
      p := [n];
      RunLabel(v, n, it, len, []);
      assert Label(v.g[n]) + [] == Label(v.g[n]);
      RunNothing(v.text, step.it, step.len);
    } else {
      var child := v.Next(n)[c[0]];
      ChildAt(v, n, c[0], step.it, step.len);
      var q := FollowIsPath(v, child, step.it, step.len, c[1..]);
      p := [n] + q;
      PathJoin(v.g, v.nodes, n, n, child, q[|q| - 1], [n], q);
      RunLabel(v, n, it, len, PathWord(v.g, q));
    }
  }

  lemma RunNothing(text: string, it: nat, len: nat)
    requires it + len <= |text|
    ensures Run([], text, it, len) == it
  {
  }

  lemma ChildAt(v: Setting, n: nat, k: nat, it: nat, len: nat)
    requires v.At(n, it, len) && k < |v.Next(n)|
    ensures v.At(v.Next(n)[k], it, len) && Edge(v.g, n, v.Next(n)[k])
  {
  }

  lemma LonePathWord(v: Setting, n: nat)
    requires n in v.nodes && n < |v.g|
    ensures Path(v.g, v.nodes, n, n, [n]) && PathWord(v.g, [n]) == Label(v.g[n])
  {
    LoneWord(v.g, n);
  }

  lemma RunLabel(v: Setting, n: nat, it: nat, len: nat, w: Word)
    requires v.At(n, it, len) && AllWellMade(v.g, v.nodes)
    ensures Run(Label(v.g[n]) + w, v.text, it, len)
         == match v.Step(n, it, len) case Fail => -1 case Go(it', len') => Run(w, v.text, it', len')
  {
    if v.g[n].kind == EndNode {
      assert Label(v.g[n]) + w == w;
    } else {
      VisitIsAtomStep(v.g[n], v.text, it, len);
      assert (Label(v.g[n]) + w)[1..] == w;
    }
  }

  /** And every such path can be followed. */
  lemma {:induction false} PathIsFollowed(v: Setting, n: nat, leaf: nat, it: nat, len: nat, p: seq<nat>)
    returns (c: seq<nat>)
    requires v.At(n, it, len) && AllWellMade(v.g, v.nodes)
    requires Path(v.g, v.nodes, n, leaf, p) && v.Next(leaf) == []
    ensures Follow(v, n, it, len, c) == Run(PathWord(v.g, p), v.text, it, len)
    decreases |p|
  {
    hide Visit, Label, Run, AllWellMade;
    assert PathWord(v.g, p) == Label(v.g[n]) + PathWord(v.g, p[1..]);
    RunLabel(v, n, it, len, PathWord(v.g, p[1..]));
    c := [];
    var step := v.Step(n, it, len);
    if |p| == 1 {
      assert p[1..] == [];
      if step.Go? {
        RunNothing(v.text, step.it, step.len);
      }
    } else {
      PathSplit(v.g, v.nodes, n, leaf, p, 1);
      var k :| 0 <= k < |v.Next(n)| && v.Next(n)[k] == p[1];
      if step.Go? {
        c := PathIsFollowed(v, p[1], leaf, step.it, step.len, p[1..]);
      }
      assert ([k] + c)[1..] == c;
      c := [k] + c;
    }
  }

  // Compiled patterns.

  lemma CompiledParts(v: Setting, root: nat, leaf: nat, items: seq<Item>, it: nat, len: nat)
    requires CompiledAs(v.g, v.nodes, root, leaf, items) && it + len <= |v.text|
    ensures v.At(root, it, len) && AllWellMade(v.g, v.nodes) && leaf < |v.g| && v.Next(leaf) == []
    ensures forall w: Word :: Spells(v.g, v.nodes, root, leaf, w) <==> Words(false, items, w)
    ensures forall n :: n in v.nodes && v.Next(n) == [] ==> n == leaf
  {
    assert OnlyTailEnds(v.g, v.nodes, leaf);
  }

  /** The loop's result on a compiled pattern, in terms of its words: the end of a word that runs, -1 only if none does.
      It needs no more than that the loop ends. */
  lemma MatchOnCompiled(v: Setting, root: nat, leaf: nat, items: seq<Item>, p: nat)
    requires v.Valid() && CompiledAs(v.g, v.nodes, root, leaf, items) && p <= |v.text| && root in v.nodes
    requires Ends(v, StartAt(v, root, p))
    ensures var r := MatchAt(v, root, p);
            if r >= 0 then exists w: Word :: Words(false, items, w) && Run(w, v.text, p, |v.text| - p) == r
            else forall w: Word :: Words(false, items, w) ==> Run(w, v.text, p, |v.text| - p) < 0
  {
    hide CompiledAs, Words, Run, Search, Ends, Final, Visit, Closed, AllWellMade;
    var len := |v.text| - p;
    CompiledParts(v, root, leaf, items, p, len);
    EndsIffSearched(v, root, p, len);
    var depth: nat :| Search(v, root, p, len, depth) != Unfinished;
    var c := SearchFindsFirst(v, root, p, len, depth);
    if Search(v, root, p, len, depth).Found? {
      var q := FollowIsPath(v, root, p, len, c);
      assert q[|q| - 1] == leaf;
      assert Spells(v.g, v.nodes, root, leaf, PathWord(v.g, q));
    } else {
      forall w: Word | Words(false, items, w)
        ensures Run(w, v.text, p, len) < 0
      {
        var q :| Path(v.g, v.nodes, root, leaf, q) && PathWord(v.g, q) == w;
        var d := PathIsFollowed(v, root, leaf, p, len, q);
      }
    }
  }

  /** What the loop finds is empty if and only if no atom of the word found has advanced. */
  lemma EmptyMatchIff(v: Setting, root: nat, leaf: nat, items: seq<Item>, p: nat) returns (w: Word)
    requires v.Valid() && CompiledAs(v.g, v.nodes, root, leaf, items) && p <= |v.text| && root in v.nodes
    requires Ends(v, StartAt(v, root, p)) && MatchAt(v, root, p) >= 0
    ensures Words(false, items, w) && Run(w, v.text, p, |v.text| - p) == MatchAt(v, root, p)
    ensures MatchAt(v, root, p) == p <==> Stays(w, v.text, p, |v.text| - p)
  {
    hide CompiledAs, Words, Run, Ends, Final, Closed, Stays;
    MatchOnCompiled(v, root, leaf, items, p);
    w :| Words(false, items, w) && Run(w, v.text, p, |v.text| - p) == MatchAt(v, root, p);
    RunStaysIff(w, v.text, p, |v.text| - p);
  }

  // Characters.

  /** t is in the language a reader of the pattern expects. */
  ghost predicate Expected(items: seq<Item>, t: string) {
    exists w: Word :: Words(true, items, w) && SpelledBy(w, t)
  }

  /** For patterns in which nothing but dots lags: what the loop finds is what the other atoms of some compiled word
      spell, and the dots only have to find enough length left; when it finds nothing there is no such word. */
  lemma MatchWithDots(v: Setting, root: nat, leaf: nat, items: seq<Item>, p: nat)
    requires v.Valid() && CompiledAs(v.g, v.nodes, root, leaf, items) && p <= |v.text| && root in v.nodes
    requires Ends(v, StartAt(v, root, p)) && AllAtoms(items, NoRangeLags)
    ensures var r := MatchAt(v, root, p);
            if r >= 0 then exists w: Word :: Words(false, items, w) && SpellsLetters(v, w, p, r)
            else forall w: Word, end: nat :: Words(false, items, w) ==> !SpellsLetters(v, w, p, end)
  {
    hide CompiledAs, Words, Run, SpelledBy, Ends, Final, Closed, AllAtoms;
    var r := MatchAt(v, root, p);
    MatchInText(v, root, p);
    MatchOnCompiled(v, root, leaf, items, p);
    if r >= 0 {
      var w: Word :| Words(false, items, w) && Run(w, v.text, p, |v.text| - p) == r;
      WordAtoms(false, items, NoRangeLags, w);
      RunDots(w, v.text, p, |v.text| - p);
      assert SpellsLetters(v, w, p, r);
    } else {
      forall w: Word, end: nat | Words(false, items, w)
        ensures !SpellsLetters(v, w, p, end)
      {
        WordAtoms(false, items, NoRangeLags, w);
        RunDots(w, v.text, p, |v.text| - p);
      }
    }
  }

  /** The text from p to end is what the atoms of w other than dots spell, and from p on it has room for all of w. */
  predicate SpellsLetters(v: Setting, w: Word, p: nat, end: nat) {
    p + |w| <= |v.text| && end == p + |NoDots(w)| && SpelledBy(NoDots(w), v.text[p..end])
  }

  /** For patterns whose compiled language is the expected one and whose atoms all advance, what the loop finds is a
      string of the expected language, and when it finds none there is none to find. */
  lemma MatchesIsExpected(v: Setting, root: nat, leaf: nat, items: seq<Item>, p: nat)
    requires v.Valid() && CompiledAs(v.g, v.nodes, root, leaf, items) && p <= |v.text| && root in v.nodes
    requires Ends(v, StartAt(v, root, p))
    requires SameLanguage(items) && AllAtoms(items, NeverLags)
    ensures var r := MatchAt(v, root, p);
            if r >= 0 then p <= r <= |v.text| && Expected(items, v.text[p..r])
            else forall end :: p <= end <= |v.text| ==> !Expected(items, v.text[p..end])
  {
    hide CompiledAs, Words, Run, SpelledBy, Ends, Final, Closed, AllAtoms;
    var r := MatchAt(v, root, p);
    MatchInText(v, root, p);
    MatchOnCompiled(v, root, leaf, items, p);
    if r >= 0 {
      var w: Word :| Words(false, items, w) && Run(w, v.text, p, |v.text| - p) == r;
      WordAtoms(false, items, NeverLags, w);
      RunSpells(w, v.text, p, |v.text| - p);
      assert Words(true, items, w) && SpelledBy(w, v.text[p..r]);
    } else {
      forall end | p <= end <= |v.text|
        ensures !Expected(items, v.text[p..end])
      {
        if w: Word :| Words(true, items, w) && SpelledBy(w, v.text[p..end]) {
          WordAtoms(false, items, NeverLags, w);
          RunSpells(w, v.text, p, |v.text| - p);
          assert |w| == end - p by {
            SpelledLength(w, v.text[p..end]);
          }
        }
      }
    }
  }

  lemma SpelledLength(w: Word, t: string)
    requires SpelledBy(w, t)
    ensures |w| == |t|
  {
  }
}
