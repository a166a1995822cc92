/** When `Matcher::matches` does what a reader of the pattern expects, on every text. */
module MatcherRight {
  import opened PatternLanguage
  import opened PatternAtoms
  import opened PatternGraph
  import opened Pattern
  import opened Matcher
  import opened MatcherWords
  import opened MatcherHalting

  /** The loop ends, and finds a string that the pattern describes if there is one, nothing otherwise. */
  ghost predicate RightAt(g: Graph, s: set<nat>, root: nat, items: seq<Item>, text: string, p: nat)
    requires Closed(g, s) && root in s && p <= |text|
  {
    LoopEnds(g, s, root, text, p) && RightEnd(items, text, p, MatchAt(Setting(g, s, text), root, p))
  }

  ghost predicate RightEnd(items: seq<Item>, text: string, p: nat, r: int)
    requires p <= |text|
  {
    if r >= 0 then p <= r <= |text| && Expected(items, text[p..r])
    else forall end :: p <= end <= |text| ==> !Expected(items, text[p..end])
  }

  /** No group is repeated that can be empty, no neighbours clash, no atom lags: at any depth. */
  ghost predicate Sound(items: seq<Item>) {
    NoNullableLoops(items) && NoClash(items) && AllAtoms(items, NeverLags)
  }

  ghost predicate SoundBody(body: Body) {
    match body case Single(a) => NeverLags(a) case Group(items) => Sound(items)
  }

  /** At least what can be left out is sound. */
  ghost predicate OptionalSound(items: seq<Item>) {
    items == [] || (OptionalSound(Init(items)) && OptionalSoundInside(Last(items)))
  }

  ghost predicate OptionalSoundInside(item: Item) {
    if item.skip then SoundBody(item.body) else item.body.Group? ==> OptionalSound(item.body.items)
  }

  lemma {:induction false} OptionalParts(items: seq<Item>)
    requires OptionalSound(items)
    ensures NothingHidden(items) && OptionalFine(items)
  {
    if items != [] {
      OptionalParts(Init(items));
      OptionalPartsInside(Last(items));
    }
  }

  lemma {:induction false} OptionalPartsInside(item: Item)
    requires OptionalSoundInside(item)
    ensures NothingHiddenInside(item) && OptionalFineInside(item)
  {
    if item.body.Group? && !item.skip {
      OptionalParts(item.body.items);
    }
  }

  // A text on which the shortest word is all there is.

  ghost predicate AnyLags(w: Word) {
    exists i :: 0 <= i < |w| && AtomLags(w[i])
  }

  lemma EitherLags(u: Word, v: Word)
    requires AnyLags(u) || AnyLags(v)
    ensures AnyLags(u + v)
  {
    hide AtomLags;
    if AnyLags(u) {
      var i :| 0 <= i < |u| && AtomLags(u[i]);
      assert (u + v)[i] == u[i];
    } else {
      var i :| 0 <= i < |v| && AtomLags(v[i]);
      assert (u + v)[|u| + i] == v[i];
    }
  }

  /** An atom that lags is one of the shortest word. */
  lemma {:induction false} ShortestLags(items: seq<Item>)
    requires OptionalSound(items) && !AllAtoms(items, NeverLags)
    ensures AnyLags(Shortest(items))
    decreases items
  {
    hide AnyLags, SoundBody;
    var before, last := Shortest(Init(items)), Last(items);
    if !AllAtoms(Init(items), NeverLags) {
      ShortestLags(Init(items));
    } else {
      ShortestBodyLags(last);
    }
    EitherLags(before, if last.skip then [] else ShortestBody(last));
  }

  lemma {:induction false} ShortestBodyLags(item: Item)
    requires OptionalSoundInside(item) && !ItemAtoms(item, NeverLags)
    ensures !item.skip && AnyLags(ShortestBody(item))
    decreases item
  {
    match item.body {
      case Single(a) => assert AtomLags(ShortestBody(item)[0]);
      case Group(items) =>
        if !item.skip {
          ShortestLags(items);
        }
    }
  }

  /** A text that w spells, with every atom that lags standing where it does. */
  lemma {:induction false} LaggingText(w: Word) returns (t: string)
    requires forall i :: 0 <= i < |w| ==> AtomPasses(w[i])
    ensures SpelledBy(w, t) && forall i :: 0 <= i < |w| && AtomLags(w[i]) ==> LagsOn(w[i], t[i])
  {
    t := "";
    if w != [] {
      var last := |w| - 1;
      var a := w[last];
      hide Accepts, LagsOn, AtomLags;
      t := LaggingText(w[..last]);
      assert AtomPasses(a);
      var c := LaggingChar(a);
      t := t + [c];
    }
  }

  lemma LaggingChar(a: Atom) returns (c: char)
    requires AtomPasses(a)
    ensures Accepts(a, c) && (AtomLags(a) ==> LagsOn(a, c))
  {
    c := LOWEST;
    if AtomLags(a) {
      LagsOnLowest(a);
    } else {
      c :| Accepts(a, c) && !LagsOn(a, c);
    }
  }

  /** Matched rightly, that text is matched in full. */
  lemma ShortestFound(v: Setting, root: nat, items: seq<Item>)
    requires v.Valid() && root in v.nodes
    requires RightAt(v.g, v.nodes, root, items, v.text, 0) && SpelledBy(Shortest(items), v.text)
    ensures Ends(v, StartAt(v, root, 0)) && MatchAt(v, root, 0) == |v.text| == |Shortest(items)|
  {
    hide Words, Ends, MatchAt, Closed, SpelledBy, Shortest;
    var r, m := MatchAt(v, root, 0), |v.text|;
    assert v == Setting(v.g, v.nodes, v.text);
    SpelledLength(Shortest(items), v.text);
    ShortestIsExpected(items);
    assert v.text[0..m] == v.text;
    assert Expected(items, v.text[0..m]);
    assert r >= 0;
    var u: Word :| Words(true, items, u) && SpelledBy(u, v.text[0..r]);
    SpelledLength(u, v.text[0..r]);
    ShortestIsLeast(true, items, u);
  }

  /** Then the word is compiled, and no atom of it lags. */
  lemma ShortestMatched(v: Setting, root: nat, leaf: nat, items: seq<Item>)
    requires CompiledAs(v.g, v.nodes, root, leaf, items) && v.Valid() && root in v.nodes
    requires RightAt(v.g, v.nodes, root, items, v.text, 0) && SpelledBy(Shortest(items), v.text)
    ensures Words(false, items, Shortest(items)) && |v.text| == |Shortest(items)|
    ensures forall i :: 0 <= i < |v.text| ==> !LagsOn(Shortest(items)[i], v.text[i])
  {
    hide CompiledAs, Words, Run, Ends, MatchAt, Closed, Accepts, LagsOn, SpelledBy, Shortest, RightAt;
    var m := |v.text|;
    ShortestFound(v, root, items);
    MatchOnCompiled(v, root, leaf, items, 0);
    var w: Word :| Words(false, items, w) && Run(w, v.text, 0, m) == m;
    RunStaysIff(w, v.text, 0, m);
    ShortestIsLeast(false, items, w);
    RunInFull(w, v.text, 0, m);
  }

  lemma NothingLags(w: Word, t: string)
    requires |t| == |w| && forall i :: 0 <= i < |w| && AtomLags(w[i]) ==> LagsOn(w[i], t[i])
    requires forall i :: 0 <= i < |t| ==> !LagsOn(w[i], t[i])
    ensures !AnyLags(w)
  {
  }

  /** That text, if the loop ends on all of them but something else is not sound. */
  lemma UnsoundText(g: Graph, s: set<nat>, root: nat, leaf: nat, items: seq<Item>) returns (text: string)
    requires CompiledAs(g, s, root, leaf, items) && AllAtoms(items, AtomPasses) && OptionalSound(items)
    requires NoNullableLoops(items) && !Sound(items)
    ensures Closed(g, s) && root in s && !RightAt(g, s, root, items, text, 0)
  {
    hide CompiledAs, AllAtoms, OptionalSound, Words, SpelledBy, Ends, MatchAt, Closed, LagsOn, AnyLags, Shortest;
    OptionalParts(items);
    NoNullableLoopsEnd(g, s, root, leaf, items);
    var w := Shortest(items);
    ShortestIsExpected(items);
    WordAtoms(true, items, AtomPasses, w);
    text := LaggingText(w);
    if RightAt(g, s, root, items, text, 0) {
      ShortestMatched(Setting(g, s, text), root, leaf, items);
      ShortestCompiled(items);
      NoClashParts(items);
      NothingLags(w, text);
      ShortestLags(items);
      assert false;
    }
  }

  /** If all atoms can be passed and what can be left out is sound: the matcher is right about every text, from every
      position, if and only if the whole pattern is sound. */
  lemma AlwaysRightIff(g: Graph, s: set<nat>, root: nat, leaf: nat, items: seq<Item>)
    requires CompiledAs(g, s, root, leaf, items) && AllAtoms(items, AtomPasses) && OptionalSound(items)
    ensures Closed(g, s) && root in s
    ensures (forall text: string, p: nat | p <= |text| :: RightAt(g, s, root, items, text, p)) <==> Sound(items)
  {
    hide CompiledAs, AllAtoms, OptionalSound, Words, SpelledBy, Ends, MatchAt, Closed, LagsOn;
    OptionalParts(items);
    AlwaysEndsIff(g, s, root, leaf, items);
    if Sound(items) {
      forall text: string, p: nat | p <= |text|
        ensures RightAt(g, s, root, items, text, p)
      {
        assert LoopEnds(g, s, root, text, p);
        CompiledIsExpectedIff(items);
        MatchesIsExpected(Setting(g, s, text), root, leaf, items, p);
      }
    } else if NoNullableLoops(items) {
      var text := UnsoundText(g, s, root, leaf, items);
      assert !RightAt(g, s, root, items, text, 0);
    } else {
      var text: string, p: nat :| p <= |text| && !LoopEnds(g, s, root, text, p);
      assert !RightAt(g, s, root, items, text, p);
    }
  }
}
