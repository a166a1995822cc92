/** When the loop of `Matcher::matches` never ends, in terms of the ways through the graph and their order. */
module MatcherOrder {
  import opened PatternLanguage
  import opened PatternGraph
  import opened PatternTraps
  import opened PatternFragment
  import opened Pattern
  import opened Matcher
  import opened MatcherWords
  import opened MatcherHalting

  /** The node that the children c lead to from n, if the text lets them; -1 if not. */
  ghost function Lead(v: Setting, n: nat, it: nat, len: nat, c: seq<nat>): (t: int)
    requires v.At(n, it, len)
    ensures t >= 0 ==> t in v.nodes
    decreases |c|
  {
    if c == [] then n
    else match v.Step(n, it, len)
      case Fail => -1
      case Go(it', len') =>
        if c[0] >= |v.Next(n)| then -1 else Lead(v, v.Next(n)[c[0]], it', len', c[1..])
  }

  /** d branches off before c does, in child order. */
  predicate Before(d: seq<nat>, c: seq<nat>) {
    d != [] && c != [] && (d[0] < c[0] || (d[0] == c[0] && Before(d[1..], c[1..])))
  }

  ghost predicate NoMatchBefore(v: Setting, n: nat, it: nat, len: nat, c: seq<nat>)
    requires v.At(n, it, len)
  {
    forall d :: Follow(v, n, it, len, d) >= 0 ==> !Before(d, c)
  }

  /** c leads to one of the tails, and no way to a match comes before it. */
  ghost predicate TrapFirst(v: Setting, n: nat, it: nat, len: nat, tails: set<nat>, c: seq<nat>)
    requires v.At(n, it, len)
  {
    Lead(v, n, it, len, c) >= 0 && Lead(v, n, it, len, c) in tails && NoMatchBefore(v, n, it, len, c)
  }

  ghost predicate NoMatch(v: Setting, n: nat, it: nat, len: nat)
    requires v.At(n, it, len)
  {
    forall d :: Follow(v, n, it, len, d) < 0
  }

  // A search that ends has been wherever a way leads that no match comes before.

  lemma {:induction false} LaterChildFinished(v: Setting, n: nat, k: nat, j: nat, it: nat, len: nat, depth: nat)
    requires v.At(n, it, len) && k <= j < |v.Next(n)| && SearchFrom(v, n, k, it, len, depth) != Unfinished
    requires forall i :: k <= i < j ==> NoMatch(v, v.Next(n)[i], it, len)
    ensures Search(v, v.Next(n)[j], it, len, depth) != Unfinished
    decreases j - k
  {
    hide Visit, Follow;
    if k < j {
      var c := SearchFindsFirst(v, v.Next(n)[k], it, len, depth);
      assert NoMatch(v, v.Next(n)[k], it, len);
      LaterChildFinished(v, n, k + 1, j, it, len, depth);
    }
  }

  lemma FollowChild(v: Setting, n: nat, it: nat, len: nat, k: nat, d: seq<nat>)
    requires v.At(n, it, len) && v.Step(n, it, len).Go? && k < |v.Next(n)|
    ensures var step := v.Step(n, it, len);
            Follow(v, n, it, len, [k] + d) == Follow(v, v.Next(n)[k], step.it, step.len, d)
  {
    assert ([k] + d)[1..] == d;
  }

  /** What comes before c at n: a match through an earlier child, or one through the same child before the rest. */
  lemma NoMatchParts(v: Setting, n: nat, it: nat, len: nat, k: nat, c: seq<nat>)
    requires v.At(n, it, len) && v.Step(n, it, len).Go? && k < |v.Next(n)|
    ensures var step := v.Step(n, it, len);
            NoMatchBefore(v, n, it, len, [k] + c) <==>
            (forall i :: 0 <= i < k ==> NoMatch(v, v.Next(n)[i], step.it, step.len))
            && NoMatchBefore(v, v.Next(n)[k], step.it, step.len, c)
  {
    hide Visit;
    var step, kc := v.Step(n, it, len), [k] + c;
    assert kc[1..] == c;
    if NoMatchBefore(v, n, it, len, kc) {
      forall i, d | 0 <= i < k
        ensures Follow(v, v.Next(n)[i], step.it, step.len, d) < 0
      {
        FollowChild(v, n, it, len, i, d);
        assert Before([i] + d, kc);
      }
      forall d | Follow(v, v.Next(n)[k], step.it, step.len, d) >= 0
        ensures !Before(d, c)
      {
        FollowChild(v, n, it, len, k, d);
        assert ([k] + d)[1..] == d;
      }
    } else {
      var d :| Follow(v, n, it, len, d) >= 0 && Before(d, kc);
      assert Follow(v, v.Next(n)[d[0]], step.it, step.len, d[1..]) >= 0;
      assert d[0] < k ==> !NoMatch(v, v.Next(n)[d[0]], step.it, step.len);
    }
  }

  lemma {:induction false} LeadSearched(v: Setting, n: nat, it: nat, len: nat, depth: nat, c: seq<nat>)
    requires v.At(n, it, len) && Search(v, n, it, len, depth) != Unfinished
    requires Lead(v, n, it, len, c) >= 0 && NoMatchBefore(v, n, it, len, c)
    ensures FinishedSomewhere(v, Lead(v, n, it, len, c), depth)
    decreases |c|
  {
    hide Visit, NoMatchBefore, NoMatch, FinishedSomewhere;
    if c == [] {
      FinishedHere(v, n, it, len, depth);
    } else {
      var step, k, rest := v.Step(n, it, len), c[0], c[1..];
      assert c == [k] + rest;
      NoMatchParts(v, n, it, len, k, rest);
      LaterChildFinished(v, n, 0, k, step.it, step.len, depth - 1);
      LeadSearched(v, v.Next(n)[k], step.it, step.len, depth - 1, rest);
      FinishedDeeper(v, Lead(v, n, it, len, c), depth - 1, depth);
    }
  }

  // A search that does not end has such a way to one of the nodes that are not ranked.

  lemma {:induction false} EndsOrTraps(v: Setting, rank: map<nat, nat>, tails: set<nat>, top: nat,
                                       n: nat, it: nat, len: nat)
    returns (depth: nat, c: seq<nat>)
    requires v.At(n, it, len) && RankedBelow(v, rank, tails, top)
    ensures Search(v, n, it, len, depth) != Unfinished || TrapFirst(v, n, it, len, tails, c)
    decreases len, rank[n], |v.Next(n)| + 1
  {
    hide Visit, TrapFirst;
    depth, c := 1, [];
    if n in tails {
      StandsHere(v, n, it, len, tails);
    } else {
      var step := v.Step(n, it, len);
      if step.Go? && v.Next(n) != [] {
        depth, c := EndsOrTrapsFrom(v, rank, tails, top, n, 0, it, len);
        depth := depth + 1;
      }
    }
  }

  lemma StandsHere(v: Setting, n: nat, it: nat, len: nat, tails: set<nat>)
    requires v.At(n, it, len) && n in tails
    ensures TrapFirst(v, n, it, len, tails, [])
  {
  }

  lemma {:induction false} EndsOrTrapsFrom(v: Setting, rank: map<nat, nat>, tails: set<nat>, top: nat,
                                           n: nat, k: nat, it: nat, len: nat)
    returns (depth: nat, c: seq<nat>)
    requires v.At(n, it, len) && RankedBelow(v, rank, tails, top) && v.Step(n, it, len).Go?
    requires n !in tails && k < |v.Next(n)|
    requires var step := v.Step(n, it, len);
             forall i :: 0 <= i < k ==> NoMatch(v, v.Next(n)[i], step.it, step.len)
    ensures var step := v.Step(n, it, len);
            SearchFrom(v, n, k, step.it, step.len, depth) != Unfinished || TrapFirst(v, n, it, len, tails, c)
    decreases v.Step(n, it, len).len, if v.g[n].kind == EndNode then rank[n] else top, |v.Next(n)| - k
  {
    hide Visit, TrapFirst, Follow, NoMatch;
    assert RankedAt(v.g, rank, n);
    var step, child := v.Step(n, it, len), v.Next(n)[k];
    depth, c := EndsOrTraps(v, rank, tails, top, child, step.it, step.len);
    if Search(v, child, step.it, step.len, depth) == Unfinished {
      TrapFirstFrom(v, n, k, it, len, tails, c);
      c := [k] + c;
    } else if Search(v, child, step.it, step.len, depth) == Failed && k + 1 < |v.Next(n)| {
      FailedMeansNone(v, child, step.it, step.len, depth);
      var depth';
      depth', c := EndsOrTrapsFrom(v, rank, tails, top, n, k + 1, it, len);
      if SearchFrom(v, n, k + 1, step.it, step.len, depth') != Unfinished {
        SiblingsDeeper(v, n, k, step.it, step.len, depth, depth');
        depth := depth + depth';
      }
    }
  }

  lemma FailedMeansNone(v: Setting, n: nat, it: nat, len: nat, depth: nat)
    requires v.At(n, it, len) && Search(v, n, it, len, depth) == Failed
    ensures NoMatch(v, n, it, len)
  {
    var c := SearchFindsFirst(v, n, it, len, depth);
  }

  lemma TrapFirstFrom(v: Setting, n: nat, k: nat, it: nat, len: nat, tails: set<nat>, c: seq<nat>)
    requires v.At(n, it, len) && v.Step(n, it, len).Go? && k < |v.Next(n)|
    requires var step := v.Step(n, it, len);
             && (forall i :: 0 <= i < k ==> NoMatch(v, v.Next(n)[i], step.it, step.len))
             && TrapFirst(v, v.Next(n)[k], step.it, step.len, tails, c)
    ensures TrapFirst(v, n, it, len, tails, [k] + c)
  {
    hide Visit, NoMatch, NoMatchBefore;
    NoMatchParts(v, n, it, len, k, c);
    assert ([k] + c)[1..] == c;
  }

  // Compiled patterns.

  /** Matching the text from p on. */
  ghost predicate TrapFirstAt(v: Setting, root: nat, p: nat, tails: set<nat>, c: seq<nat>)
    requires v.Valid() && root in v.nodes && p <= |v.text|
  {
    TrapFirst(v, root, p, |v.text| - p, tails, c)
  }

  ghost predicate TrapBeforeMatch(g: Graph, s: set<nat>, root: nat, text: string, p: nat, tails: set<nat>)
    requires Closed(g, s) && root in s && p <= |text|
  {
    exists c: seq<nat> :: TrapFirstAt(Setting(g, s, text), root, p, tails, c)
  }

  lemma UnendingTraps(v: Setting, rank: map<nat, nat>, tails: set<nat>, n: nat, it: nat, len: nat)
    returns (c: seq<nat>)
    requires v.At(n, it, len) && Ranked(v.g, v.nodes, rank, tails) && !Searched(v, n, it, len)
    ensures TrapFirst(v, n, it, len, tails, c)
  {
    hide TrapFirst;
    var top := RankBound(v.nodes, rank);
    var depth;
    depth, c := EndsOrTraps(v, rank, tails, top, n, it, len);
  }

  lemma TrapComesLater(v: Setting, n: nat, it: nat, len: nat, tails: set<nat>, out: set<nat>, c: seq<nat>)
    requires v.At(n, it, len) && AllWellMade(v.g, v.nodes) && Searched(v, n, it, len)
    requires forall t :: t in tails ==> TrapAt(v.g, v.nodes, out, t)
    ensures !TrapFirst(v, n, it, len, tails, c)
  {
    hide AllWellMade, IsTrap, Search, NoMatchBefore;
    if TrapFirst(v, n, it, len, tails, c) {
      var depth: nat :| Search(v, n, it, len, depth) != Unfinished;
      var t := Lead(v, n, it, len, c);
      LeadSearched(v, n, it, len, depth, c);
      var region :| region <= v.nodes && IsTrap(v.g, region, t) && region * out <= {t};
      TrapNeverEnds(v, region, t, depth);
    }
  }

  /** The loop never ends if and only if, in child order, a way to the tail of a group that is repeated although it can
      be empty comes before all ways to a match. */
  lemma NeverEndsIff(g: Graph, s: set<nat>, root: nat, leaf: nat, items: seq<Item>) returns (tails: set<nat>)
    requires CompiledAs(g, s, root, leaf, items)
    ensures tails == {} <==> NoNullableLoops(items)
    ensures forall t :: t in tails ==> TrapAt(g, s, {leaf}, t)
    ensures Closed(g, s) && root in s
    ensures forall text: string, p: nat | p <= |text| ::
              !LoopEnds(g, s, root, text, p) <==> TrapBeforeMatch(g, s, root, text, p, tails)
  {
    hide TrapAt, Ranked, AllWellMade, Ends, Searched, TrapFirst;
    var rank, tails' :| ProgressBy(g, s, {leaf}, NoNullableLoops(items), rank, tails');
    tails := tails';
    forall text: string, p: nat | p <= |text|
      ensures !LoopEnds(g, s, root, text, p) <==> TrapBeforeMatch(g, s, root, text, p, tails)
    {
      var v := Setting(g, s, text);
      EndsIffSearched(v, root, p, |text| - p);
      if LoopEnds(g, s, root, text, p) {
        forall c: seq<nat>
          ensures !TrapFirstAt(v, root, p, tails, c)
        {
          TrapComesLater(v, root, p, |text| - p, tails, {leaf}, c);
        }
      } else {
        var c := UnendingTraps(v, rank, tails, root, p, |text| - p);
        assert TrapFirstAt(v, root, p, tails, c);
      }
    }
  }
}
