/** When the loop of `Matcher::matches` comes to an end. */
module MatcherHalting {
  import opened PatternLanguage
  import opened PatternAtoms
  import opened PatternGraph
  import opened PatternTraps
  import opened PatternFragment
  import opened Pattern
  import opened Matcher
  import opened MatcherWords

  // The loop ends unless it comes to one of the nodes that are not ranked.

  /** After some turns the loop looks at a node of tails. */
  ghost predicate StandsOn(v: Setting, s: State, tails: set<nat>)
    requires Ready(v, s)
  {
    exists m: nat :: StandsAfter(v, s, tails, m)
  }

  ghost predicate StandsAfter(v: Setting, s: State, tails: set<nat>, m: nat)
    requires Ready(v, s)
  {
    var s' := Turns(v, s, m);
    s'.Looking? && s'.node in tails
  }

  lemma StandsLater(v: Setting, s: State, m: nat, tails: set<nat>)
    requires Ready(v, s) && StandsOn(v, Turns(v, s, m), tails)
    ensures StandsOn(v, s, tails)
  {
    hide Turns;
    var k: nat :| StandsAfter(v, Turns(v, s, m), tails, k);
    TurnsAdd(v, s, m, k);
    assert StandsAfter(v, s, tails, m + k);
  }

  lemma OneTurn(v: Setting, s: State)
    requires Ready(v, s)
    ensures Turns(v, s, 1) == Turn(v, s)
  {
    assert Turns(v, Turn(v, s), 0) == Turn(v, s);
  }

  ghost predicate RankedBelow(v: Setting, rank: map<nat, nat>, tails: set<nat>, top: nat) {
    v.Valid() && Ranked(v.g, v.nodes, rank, tails) && forall x :: x in v.nodes ==> rank[x] < top
  }

  /** The text left, then the rank, bound how far the search goes without coming to a node of tails. */
  lemma {:induction false} RunsOn(v: Setting, rank: map<nat, nat>, tails: set<nat>, top: nat,
                                  n: nat, it: nat, len: nat, stack: seq<StackEntry>)
    returns (depth: nat)
    requires v.At(n, it, len) && GoodStack(v, stack) && RankedBelow(v, rank, tails, top)
    ensures StandsOn(v, Looking(n, it, len, stack), tails) || Search(v, n, it, len, depth) != Unfinished
    decreases len, rank[n], |v.Next(n)| + 1
  {
    hide Visit, Turns;
    var s := Looking(n, it, len, stack);
    depth := 1;
    if n in tails {
      NoTurns(v, s);
      assert StandsAfter(v, s, tails, 0);
    } else {
      var step := v.Step(n, it, len);
      if step.Go? && v.Next(n) != [] {
        OneTurn(v, s);
        assert Turn(v, s) == Child(v, n, 0, step.it, step.len, stack);
        depth := RunsOnFrom(v, rank, tails, top, n, 0, step.it, step.len, stack);
        if StandsOn(v, Child(v, n, 0, step.it, step.len, stack), tails) {
          StandsLater(v, s, 1, tails);
        }
        depth := depth + 1;
      }
    }
  }

  lemma {:induction false} RunsOnFrom(v: Setting, rank: map<nat, nat>, tails: set<nat>, top: nat,
                                      n: nat, k: nat, it: nat, len: nat, stack: seq<StackEntry>)
    returns (depth: nat)
    requires v.At(n, it, len) && GoodStack(v, stack) && RankedBelow(v, rank, tails, top)
    requires n !in tails && k < |v.Next(n)|
    ensures StandsOn(v, Child(v, n, k, it, len, stack), tails) || SearchFrom(v, n, k, it, len, depth) != Unfinished
    decreases len, if v.g[n].kind == EndNode then rank[n] else top, |v.Next(n)| - k
  {
    hide Turns, Back, With, StandsOn;
    assert RankedAt(v.g, rank, n);
    var child, s := v.Next(n)[k], Child(v, n, k, it, len, stack);
    depth := RunsOn(v, rank, tails, top, child, it, len, s.stack);
    if !StandsOn(v, s, tails) && Search(v, child, it, len, depth) == Failed && k + 1 < |v.Next(n)| {
      var m := SearchRuns(v, child, it, len, depth, s.stack);
      BackToSibling(v, n, k, it, len, stack);
      var depth' := RunsOnFrom(v, rank, tails, top, n, k + 1, it, len, stack);
      if StandsOn(v, Child(v, n, k + 1, it, len, stack), tails) {
        StandsLater(v, s, m, tails);
      } else {
        SiblingsDeeper(v, n, k, it, len, depth, depth');
        depth := depth + depth';
      }
    }
  }

  lemma SiblingsDeeper(v: Setting, n: nat, k: nat, it: nat, len: nat, depth: nat, depth': nat)
    requires v.At(n, it, len) && k < |v.Next(n)|
    requires Search(v, v.Next(n)[k], it, len, depth) == Failed && SearchFrom(v, n, k + 1, it, len, depth') != Unfinished
    ensures SearchFrom(v, n, k, it, len, depth + depth') != Unfinished
  {
    Deeper(v, v.Next(n)[k], it, len, depth, depth + depth');
    DeeperFrom(v, n, k + 1, it, len, depth', depth + depth');
  }

  // What a finished search has looked at.

  /** A search from n that has failed has been, at some position, at every node that some path leads to whose word
      runs. */
  lemma {:induction false} FailureExplores(v: Setting, n: nat, t: nat, it: nat, len: nat, depth: nat, p: seq<nat>)
    requires v.At(n, it, len) && AllWellMade(v.g, v.nodes) && Search(v, n, it, len, depth) == Failed
    requires Path(v.g, v.nodes, n, t, p) && v.g[t].kind == EndNode && Run(PathWord(v.g, p), v.text, it, len) >= 0
    ensures FinishedSomewhere(v, t, depth)
    decreases |p|
  {
    hide Visit, Label, Run, AllWellMade;
    if |p| == 1 {
      assert FinishedAt(v, t, depth, it, len, depth);
    } else {
      assert PathWord(v.g, p) == Label(v.g[n]) + PathWord(v.g, p[1..]);
      RunLabel(v, n, it, len, PathWord(v.g, p[1..]));
      PathSplit(v.g, v.nodes, n, t, p, 1);
      var step := v.Step(n, it, len);
      var k :| 0 <= k < |v.Next(n)| && v.Next(n)[k] == p[1];
      EarlierFailed(v, n, 0, k, step.it, step.len, depth - 1);
      FailureExplores(v, p[1], t, step.it, step.len, depth - 1, p[1..]);
      FinishedDeeper(v, t, depth - 1, depth);
    }
  }

  /** Some search from t, no deeper than bound, is finished. */
  ghost predicate FinishedSomewhere(v: Setting, t: nat, bound: nat) {
    exists it: nat, len: nat, depth: nat :: FinishedAt(v, t, bound, it, len, depth)
  }

  ghost predicate FinishedAt(v: Setting, t: nat, bound: nat, it: nat, len: nat, depth: nat) {
    v.At(t, it, len) && depth <= bound && Search(v, t, it, len, depth) != Unfinished
  }

  lemma FinishedDeeper(v: Setting, t: nat, bound: nat, bound': nat)
    requires FinishedSomewhere(v, t, bound) && bound <= bound'
    ensures FinishedSomewhere(v, t, bound')
  {
    var it: nat, len: nat, depth: nat :| FinishedAt(v, t, bound, it, len, depth);
    assert FinishedAt(v, t, bound', it, len, depth);
  }

  /** All children from the k-th on have failed. */
  lemma {:induction false} EarlierFailed(v: Setting, n: nat, k: nat, j: nat, it: nat, len: nat, depth: nat)
    requires v.At(n, it, len) && k <= j < |v.Next(n)| && SearchFrom(v, n, k, it, len, depth) == Failed
    ensures Search(v, v.Next(n)[j], it, len, depth) == Failed
    decreases j - k
  {
    if k < j {
      EarlierFailed(v, n, k + 1, j, it, len, depth);
    }
  }

  /** The child that was accepted; those before it have failed. */
  lemma {:induction false} AcceptedChild(v: Setting, n: nat, k: nat, it: nat, len: nat, depth: nat) returns (c: nat)
    requires v.At(n, it, len) && k <= |v.Next(n)| && SearchFrom(v, n, k, it, len, depth).Found?
    ensures k <= c < |v.Next(n)| && Search(v, v.Next(n)[c], it, len, depth).Found?
    ensures forall j :: k <= j < c ==> Search(v, v.Next(n)[j], it, len, depth) == Failed
    decreases |v.Next(n)| - k
  {
    c := k;
    if Search(v, v.Next(n)[k], it, len, depth) == Failed {
      c := AcceptedChild(v, n, k + 1, it, len, depth);
    }
  }

  /** A search that has found a match followed a path to a node without children, and has been at t if the path meets
      t. */
  lemma {:induction false} AcceptanceExplores(v: Setting, n: nat, t: nat, it: nat, len: nat, depth: nat)
    returns (p: seq<nat>)
    requires v.At(n, it, len) && AllWellMade(v.g, v.nodes) && t < |v.g| && v.g[t].kind == EndNode
    requires Search(v, n, it, len, depth).Found?
    ensures p != [] && Path(v.g, v.nodes, n, p[|p| - 1], p) && v.Next(p[|p| - 1]) == []
    ensures Meets(v.g, v.nodes, t, p) ==> FinishedSomewhere(v, t, depth)
    decreases depth
  {
    hide Visit, AllWellMade, Meets, PathWord, EdgeAt, FinishedSomewhere;
    LonePathWord(v, n);
    p := [n];
    if n == t {
      FinishedHere(v, t, it, len, depth);
    } else {
      LoneMeets(v.g, v.nodes, t, n);
    }
    var step := v.Step(n, it, len);
    if v.Next(n) != [] {
      var c := AcceptedChild(v, n, 0, step.it, step.len, depth - 1);
      hide Search;
      var child := v.Next(n)[c];
      var q := AcceptanceExplores(v, child, t, step.it, step.len, depth - 1);
      ChildAt(v, n, c, step.it, step.len);
      PathJoin(v.g, v.nodes, n, n, child, q[|q| - 1], [n], q);
      p := [n] + q;
      if Meets(v.g, v.nodes, t, p) && n != t {
        MeetsHereOrLater(v.g, v.nodes, t, n, q);
        if !Meets(v.g, v.nodes, t, q) {
          PassedFailed(v, n, c, t, step.it, step.len, depth - 1);
        }
        FinishedDeeper(v, t, depth - 1, depth);
      }
    }
  }

  lemma FinishedHere(v: Setting, t: nat, it: nat, len: nat, depth: nat)
    requires v.At(t, it, len) && Search(v, t, it, len, depth) != Unfinished
    ensures FinishedSomewhere(v, t, depth)
  {
    assert FinishedAt(v, t, depth, it, len, depth);
  }

  lemma LoneMeets(g: Graph, s: set<nat>, t: nat, n: nat)
    requires n != t
    ensures !Meets(g, s, t, [n])
  {
  }

  lemma MeetsHereOrLater(g: Graph, s: set<nat>, t: nat, n: nat, q: seq<nat>)
    requires n < |g| && n != t && q != [] && Meets(g, s, t, [n] + q)
    ensures Meets(g, s, t, q) || PassesBy(g, s, t, n, q[0])
  {
    hide PassesBy;
    var p := [n] + q;
    var i: nat :| MeetsAt(g, s, t, p, i);
    if i > 0 {
      assert p[i] == q[i - 1] && (i + 1 < |p| ==> p[i + 1] == q[i]);
      assert MeetsAt(g, s, t, q, i - 1);
    }
  }

  /** Before the c-th child an earlier one has failed, from which t is reached without consuming anything. */
  lemma PassedFailed(v: Setting, n: nat, c: nat, t: nat, it: nat, len: nat, depth: nat)
    requires v.At(n, it, len) && AllWellMade(v.g, v.nodes) && c < |v.Next(n)| && t < |v.g| && v.g[t].kind == EndNode
    requires forall j :: 0 <= j < c ==> Search(v, v.Next(n)[j], it, len, depth) == Failed
    requires PassesBy(v.g, v.nodes, t, n, v.Next(n)[c])
    ensures FinishedSomewhere(v, t, depth)
  {
    hide Visit, Run, AllWellMade, Spells, Search;
    var next := v.Next(n);
    var j: nat :| j < |next| && Spells(v.g, v.nodes, next[j], t, []) && next[c] !in next[..j + 1];
    NotAmong(next, j + 1, c);
    EmptyFailure(v, next[j], t, it, len, depth);
  }

  lemma NotAmong(xs: seq<nat>, k: nat, c: nat)
    requires k <= |xs| && c < |xs| && xs[c] !in xs[..k]
    ensures c >= k
  {
    assert forall i :: 0 <= i < k ==> xs[..k][i] == xs[i];
  }

  lemma EmptyFailure(v: Setting, n: nat, t: nat, it: nat, len: nat, depth: nat)
    requires v.At(n, it, len) && AllWellMade(v.g, v.nodes) && Search(v, n, it, len, depth) == Failed
    requires t < |v.g| && v.g[t].kind == EndNode && Spells(v.g, v.nodes, n, t, [])
    ensures FinishedSomewhere(v, t, depth)
  {
    hide Visit, Run, AllWellMade, Search;
    var p :| Path(v.g, v.nodes, n, t, p) && PathWord(v.g, p) == [];
    hide Path, PathWord;
    RunNothing(v.text, it, len);
    FailureExplores(v, n, t, it, len, depth, p);
  }

  // Traps.

  /** A search that has found a match below a node of a trap has been at the trap's tail. */
  lemma {:induction false} RegionLeft(v: Setting, region: set<nat>, t: nat, n: nat, it: nat, len: nat, depth: nat)
    requires v.At(n, it, len) && region <= v.nodes && IsTrap(v.g, region, t) && n in region
    requires Search(v, n, it, len, depth).Found?
    ensures FinishedSomewhere(v, t, depth)
    decreases depth
  {
    hide Visit;
    if n == t {
      assert FinishedAt(v, t, depth, it, len, depth);
    } else {
      var step := v.Step(n, it, len);
      var c := AcceptedChild(v, n, 0, step.it, step.len, depth - 1);
      assert v.Next(n)[c] in v.g[n].next;
      RegionLeft(v, region, t, v.Next(n)[c], step.it, step.len, depth - 1);
      FinishedDeeper(v, t, depth - 1, depth);
    }
  }

  /** From the tail of a trap the search never ends: whatever a child in the trap comes to, it has been there. */
  lemma {:induction false} TrapNeverEnds(v: Setting, region: set<nat>, t: nat, bound: nat)
    requires v.Valid() && AllWellMade(v.g, v.nodes) && region <= v.nodes && IsTrap(v.g, region, t)
    ensures !FinishedSomewhere(v, t, bound)
    decreases bound
  {
    hide Visit, AllWellMade, IsTrap, Search;
    if FinishedSomewhere(v, t, bound) {
      var it: nat, len: nat, depth: nat :| FinishedAt(v, t, bound, it, len, depth);
      TrapTail(v, region, t, it, len, depth);
      var j := TrapReturn(v.g, region, t);
      TrapNeverEnds(v, region, t, depth - 1);
      ChildrenOfTrap(v, region, t, 0, j, it, len, depth - 1);
      assert false;
    }
  }

  lemma TrapTail(v: Setting, region: set<nat>, t: nat, it: nat, len: nat, depth: nat)
    requires v.At(t, it, len) && IsTrap(v.g, region, t) && Search(v, t, it, len, depth) != Unfinished
    ensures depth > 0 && SearchFrom(v, t, 0, it, len, depth - 1) != Unfinished
  {
    var j: nat :| ReturnsAt(v.g, region, t, j);
  }

  lemma TrapReturn(g: Graph, region: set<nat>, t: nat) returns (j: nat)
    requires IsTrap(g, region, t)
    ensures t < |g| && ReturnsAt(g, region, t, j)
  {
    j :| ReturnsAt(g, region, t, j);
  }

  lemma {:induction false} ChildrenOfTrap(v: Setting, region: set<nat>, t: nat, k: nat, j: nat, it: nat, len: nat,
                                          depth: nat)
    requires v.At(t, it, len) && AllWellMade(v.g, v.nodes) && region <= v.nodes && IsTrap(v.g, region, t)
    requires ReturnsAt(v.g, region, t, j) && k <= j && SearchFrom(v, t, k, it, len, depth) != Unfinished
    ensures FinishedSomewhere(v, t, depth)
    decreases j - k
  {
    hide Visit, Run, AllWellMade, IsTrap;
    var child := v.Next(t)[k];
    if Search(v, child, it, len, depth).Found? {
      RegionLeft(v, region, t, child, it, len, depth);
    } else if k < j {
      ChildrenOfTrap(v, region, t, k + 1, j, it, len, depth);
    } else {
      var p :| Path(v.g, region, child, t, p) && PathWord(v.g, p) == [];
      assert Path(v.g, v.nodes, child, t, p);
      RunNothing(v.text, it, len);
      TrapKind(v.g, region, t);
      FailureExplores(v, child, t, it, len, depth, p);
    }
  }

  lemma TrapKind(g: Graph, region: set<nat>, t: nat)
    requires IsTrap(g, region, t)
    ensures t in region && t < |g| && g[t].kind == EndNode
  {
  }

  // Compiled patterns.

  /** The loop that matches the text from p on. */
  ghost predicate LoopEnds(g: Graph, s: set<nat>, root: nat, text: string, p: nat)
    requires Closed(g, s) && root in s && p <= |text|
  {
    var v := Setting(g, s, text);
    Ends(v, StartAt(v, root, p))
  }

  /** That loop comes to a node of tails. */
  ghost predicate LoopStands(g: Graph, s: set<nat>, root: nat, text: string, p: nat, tails: set<nat>)
    requires Closed(g, s) && root in s && p <= |text|
  {
    var v := Setting(g, s, text);
    StandsOn(v, StartAt(v, root, p), tails)
  }

  lemma StandingNeverEnds(v: Setting, s: State, tails: set<nat>, out: set<nat>)
    requires Ready(v, s) && AllWellMade(v.g, v.nodes) && StandsOn(v, s, tails)
    requires forall t :: t in tails ==> TrapAt(v.g, v.nodes, out, t)
    ensures !Ends(v, s)
  {
    hide Turns, Visit, AllWellMade, IsTrap;
    if Ends(v, s) {
      var m: nat :| StandsAfter(v, s, tails, m);
      var s' := Turns(v, s, m);
      var last := LastTurn(v, s);
      StillTurning(v, s, m, last);
      TurnsAdd(v, s, m, last - m);
      var depth := EndSearched(v, s'.node, s'.it, s'.len, s'.stack, last - m);
      assert FinishedAt(v, s'.node, depth, s'.it, s'.len, depth);
      var region :| region <= v.nodes && IsTrap(v.g, region, s'.node) && region * out <= {s'.node};
      TrapNeverEnds(v, region, s'.node, depth);
    }
  }

  lemma RanksEnd(v: Setting, rank: map<nat, nat>, tails: set<nat>, n: nat, it: nat, len: nat)
    requires v.At(n, it, len) && Ranked(v.g, v.nodes, rank, tails)
    ensures StandsOn(v, Looking(n, it, len, []), tails) || Searched(v, n, it, len)
  {
    var top := RankBound(v.nodes, rank);
    var depth := RunsOn(v, rank, tails, top, n, it, len, []);
  }

  /** The loop ends exactly where it does not come to the tail of a group that is repeated although it can be empty:
      there is a set of such tails, the same for all texts, which is empty if and only if there is no such group. */
  lemma LoopEndsIff(g: Graph, s: set<nat>, root: nat, leaf: nat, items: seq<Item>) returns (tails: set<nat>)
    requires CompiledAs(g, s, root, leaf, items)
    ensures tails == {} <==> NoNullableLoops(items)
    ensures forall t :: t in tails ==> TrapAt(g, s, {leaf}, t)
    ensures Closed(g, s) && root in s
    ensures forall text: string, p: nat | p <= |text| ::
              LoopEnds(g, s, root, text, p) <==> !LoopStands(g, s, root, text, p, tails)
  {
    hide TrapAt, Ranked, AllWellMade, StandsOn, Ends, Searched;
    var rank, tails' :| ProgressBy(g, s, {leaf}, NoNullableLoops(items), rank, tails');
    tails := tails';
    forall text: string, p: nat | p <= |text|
      ensures LoopEnds(g, s, root, text, p) <==> !LoopStands(g, s, root, text, p, tails)
    {
      var v := Setting(g, s, text);
      if StandsOn(v, StartAt(v, root, p), tails) {
        StandingNeverEnds(v, StartAt(v, root, p), tails, {leaf});
      } else {
        RanksEnd(v, rank, tails, root, p, |text| - p);
        EndsIffSearched(v, root, p, |text| - p);
      }
    }
  }

  /** Patterns that repeat no group that can be empty: the loop ends on every text, from every position. */
  lemma NoNullableLoopsEnd(g: Graph, s: set<nat>, root: nat, leaf: nat, items: seq<Item>)
    requires CompiledAs(g, s, root, leaf, items) && NoNullableLoops(items)
    ensures Closed(g, s) && root in s
    ensures forall text: string, p: nat | p <= |text| :: LoopEnds(g, s, root, text, p)
  {
    var tails := LoopEndsIff(g, s, root, leaf, items);
    forall text: string, p: nat | p <= |text|
      ensures LoopEnds(g, s, root, text, p)
    {
      assert !LoopStands(g, s, root, text, p, tails);
    }
  }

  /** A rank that falls along all non-consuming edges exists exactly for those patterns. */
  lemma RankIff(g: Graph, s: set<nat>, root: nat, leaf: nat, items: seq<Item>)
    requires CompiledAs(g, s, root, leaf, items)
    ensures (exists rank :: Ranked(g, s, rank, {})) <==> NoNullableLoops(items)
  {
    hide AllWellMade, IsTrap, Search;
    var rank, tails :| ProgressBy(g, s, {leaf}, NoNullableLoops(items), rank, tails);
    if rank' :| Ranked(g, s, rank', {}) {
      if t :| t in tails {
        var v := Setting(g, s, "");
        var region :| region <= s && IsTrap(g, region, t) && region * {leaf} <= {t};
        RanksEnd(v, rank', {}, t, 0, 0);
        var depth: nat :| Search(v, t, 0, 0, depth) != Unfinished;
        assert FinishedAt(v, t, depth, 0, 0, depth);
        TrapNeverEnds(v, region, t, depth);
      }
    }
  }

  // Patterns with an exposed trap.

  lemma SnareOf(g: Graph, s: set<nat>, root: nat, leaf: nat, items: seq<Item>, strict: bool)
    returns (t: nat, region: set<nat>)
    requires CompiledAs(g, s, root, leaf, items) && Trapped(strict, items)
    ensures region <= s && IsTrap(g, region, t) && ReachedBy(g, s, root, t, strict) && Barred(g, s, t, root, leaf)
  {
    assert Snared(g, s, root, leaf, {}, strict);
    t :| Snare(g, s, root, leaf, {}, strict, t);
    region :| region <= s && IsTrap(g, region, t) && region * ({leaf} + {}) <= {t};
  }

  /** No text is ever matched: the way past the trap leads through its tail. */
  lemma TrappedNeverMatches(v: Setting, root: nat, leaf: nat, items: seq<Item>, strict: bool, p: nat)
    requires CompiledAs(v.g, v.nodes, root, leaf, items) && Trapped(strict, items)
    requires v.Valid() && root in v.nodes && p <= |v.text| && Ends(v, StartAt(v, root, p))
    ensures MatchAt(v, root, p) == -1
  {
    hide CompiledAs, IsTrap, Search, AllWellMade, Meets, Ends, Final;
    var len := |v.text| - p;
    var t, region := SnareOf(v.g, v.nodes, root, leaf, items, strict);
    CompiledParts(v, root, leaf, items, p, len);
    TrapKind(v.g, region, t);
    EndsIffSearched(v, root, p, len);
    var depth: nat :| Search(v, root, p, len, depth) != Unfinished;
    if Search(v, root, p, len, depth).Found? {
      var q := AcceptanceExplores(v, root, t, p, len, depth);
      assert q[|q| - 1] == leaf;
      assert Meets(v.g, v.nodes, t, q);
      TrapNeverEnds(v, region, t, depth);
    }
  }

  /** Where a word runs that leads to the trap, the loop never ends. */
  lemma TrappedRuns(v: Setting, root: nat, leaf: nat, items: seq<Item>, strict: bool, p: nat, t: nat, region: set<nat>,
                    w: Word)
    requires CompiledAs(v.g, v.nodes, root, leaf, items) && Trapped(strict, items)
    requires v.Valid() && root in v.nodes && p <= |v.text|
    requires region <= v.nodes && IsTrap(v.g, region, t) && Spells(v.g, v.nodes, root, t, w)
    requires Run(w, v.text, p, |v.text| - p) >= 0
    ensures !Ends(v, StartAt(v, root, p))
  {
    hide CompiledAs, IsTrap, Search, AllWellMade, Run, Ends, Final;
    if Ends(v, StartAt(v, root, p)) {
      var len := |v.text| - p;
      TrappedNeverMatches(v, root, leaf, items, strict, p);
      CompiledParts(v, root, leaf, items, p, len);
      TrapKind(v.g, region, t);
      EndsIffSearched(v, root, p, len);
      var depth: nat :| Search(v, root, p, len, depth) != Unfinished;
      var q :| Path(v.g, v.nodes, root, t, q) && PathWord(v.g, q) == w;
      FailureExplores(v, root, t, p, len, depth, q);
      TrapNeverEnds(v, region, t, depth);
    }
  }

  /** On some text the loop never ends. */
  lemma TrappedLoops(g: Graph, s: set<nat>, root: nat, leaf: nat, items: seq<Item>) returns (text: string)
    requires CompiledAs(g, s, root, leaf, items) && Trapped(false, items)
    ensures Closed(g, s) && root in s && !LoopEnds(g, s, root, text, 0)
  {
    hide Spells, IsTrap, Run, Ends, Fragment, Passing, Barred;
    var t, region := SnareOf(g, s, root, leaf, items, false);
    var w: Word :| Passing(false, w) && Spells(g, s, root, t, w);
    text := PassingText(w);
    CompiledParts(Setting(g, s, text), root, leaf, items, 0, 0);
    TrappedRuns(Setting(g, s, text), root, leaf, items, false, 0, t, region, w);
  }

  /** If nothing has to be consumed before the trap, the loop ends on no text at all, from no position. */
  lemma StrictlyTrappedLoops(g: Graph, s: set<nat>, root: nat, leaf: nat, items: seq<Item>, text: string, p: nat)
    requires CompiledAs(g, s, root, leaf, items) && Trapped(true, items) && p <= |text|
    ensures Closed(g, s) && root in s && !LoopEnds(g, s, root, text, p)
  {
    var t, region := SnareOf(g, s, root, leaf, items, true);
    var w: Word :| Passing(true, w) && Spells(g, s, root, t, w);
    RunNothing(text, p, |text| - p);
    hide Spells, IsTrap, Run, Ends, Barred;
    TrappedRuns(Setting(g, s, text), root, leaf, items, true, p, t, region, w);
  }

  // The exact condition, from the syntax tree.

  /** No group that can be left out contains a repeated group that can be empty. */
  predicate NothingHidden(items: seq<Item>) {
    items == [] || (NothingHidden(Init(items)) && NothingHiddenInside(Last(items)))
  }

  predicate NothingHiddenInside(item: Item) {
    item.body.Group? ==> if item.skip then NoNullableLoops(item.body.items) else NothingHidden(item.body.items)
  }

  lemma {:induction false} SomeWordPasses(items: seq<Item>) returns (w: Word)
    requires AllAtoms(items, AtomPasses)
    ensures Taken(false, items, w) && Passing(false, w)
    decreases items
  {
    w := [];
    if items != [] {
      var u := SomeWordPasses(Init(items));
      var v := SomeRoundPasses(Last(items));
      w := u + v;
      assert Joined(w, u, v) && Words(false, Init(items), u) && OnceOrMore(false, Last(items), v);
    }
  }

  lemma {:induction false} SomeRoundPasses(item: Item) returns (v: Word)
    requires ItemAtoms(item, AtomPasses)
    ensures OnceOrMore(false, item, v) && Passing(false, v)
    decreases item
  {
    match item.body {
      case Single(a) => v := [a];
      case Group(items) => v := SomeWordPasses(items);
    }
    assert BodyWord(false, item.body, v);
    OnceIs(false, item, v);
  }

  /** Where nothing is hidden and every atom can be passed, every repeated group that can be empty is exposed. */
  lemma {:induction false} NothingHiddenTrapped(items: seq<Item>)
    requires AllAtoms(items, AtomPasses) && NothingHidden(items) && !NoNullableLoops(items)
    ensures Trapped(false, items)
    decreases items
  {
    if !NoNullableLoops(Init(items)) {
      NothingHiddenTrapped(Init(items));
    } else {
      NothingHiddenTrappedItem(Last(items));
      var w := SomeWordPasses(Init(items));
      assert Words(false, Init(items), w) && Passing(false, w);
    }
  }

  lemma {:induction false} NothingHiddenTrappedItem(item: Item)
    requires ItemAtoms(item, AtomPasses) && NothingHiddenInside(item) && !NoNullableLoopInside(item)
    ensures TrappedItem(item.skip, item)
    decreases item
  {
    if !(item.loop && BodyNullable(item)) {
      NothingHiddenTrapped(item.body.items);
      assert TrappedBody(false, item.body);
    }
  }

  /** For these patterns the loop ends on every text if and only if they repeat no group that can be empty. */
  lemma AlwaysEndsIff(g: Graph, s: set<nat>, root: nat, leaf: nat, items: seq<Item>)
    requires CompiledAs(g, s, root, leaf, items) && AllAtoms(items, AtomPasses) && NothingHidden(items)
    ensures Closed(g, s) && root in s
    ensures (forall text: string, p: nat | p <= |text| :: LoopEnds(g, s, root, text, p)) <==> NoNullableLoops(items)
  {
    hide Ends;
    if NoNullableLoops(items) {
      NoNullableLoopsEnd(g, s, root, leaf, items);
    } else {
      NothingHiddenTrapped(items);
      var text := TrappedLoops(g, s, root, leaf, items);
      assert !LoopEnds(g, s, root, text, 0);
    }
  }
}
