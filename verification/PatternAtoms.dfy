/** What the atoms of `src/Pattern.cpp` patterns do to a text. */
module PatternAtoms {
  import opened Chars
  import opened PatternLanguage

  /** What a node's `matches` does to the iterator and to the remaining length. */
  datatype Stepped = Fail | Go(it: nat, len: nat)

  predicate InBounds(bounds: seq<Bounds>, c: char) {
    exists i :: 0 <= i < |bounds| && Signed(bounds[i].cmin) <= Signed(c) <= Signed(bounds[i].cmax)
  }

  lemma ListedChars(chars: string, c: char)
    ensures InBounds(Singletons(chars), c) <==> c in chars
  {
    if c in chars {
      var i :| 0 <= i < |chars| && chars[i] == c;
      assert Singletons(chars)[i] == Bounds(c, c);
    }
  }

  lemma OneBound(lo: char, hi: char, c: char)
    ensures InBounds([Bounds(lo, hi)], c) <==> Signed(lo) <= Signed(c) <= Signed(hi)
  {
    assert [Bounds(lo, hi)][0] == Bounds(lo, hi);
  }

  predicate Accepts(a: Atom, c: char) {
    a.Any? || InBounds(a.bounds, c) != a.inverted
  }

  lemma DotAccepts(a: Atom, c: char)
    requires a.Any?
    ensures Accepts(a, c) && LagsOn(a, c)
  {
  }

  const LOWEST: char := 128 as char

  /** An inverted single range with something below its minimum: its node does not advance on that. */
  predicate RangeLags(a: Atom) {
    a.OneOf? && a.inverted && |a.bounds| == 1 && a.bounds[0].cmin != a.bounds[0].cmax && a.bounds[0].cmin != LOWEST
  }

  /** A dot's node never advances. */
  predicate AtomLags(a: Atom) {
    a.Any? || RangeLags(a)
  }

  predicate NeverLags(a: Atom) {
    !AtomLags(a)
  }

  predicate NoRangeLags(a: Atom) {
    !RangeLags(a)
  }

  predicate LagsOn(a: Atom, c: char) {
    a.Any? || (RangeLags(a) && Signed(c) < Signed(a.bounds[0].cmin))
  }

  function AtomStep(a: Atom, text: string, it: nat, len: nat): (r: Stepped)
    requires it + len <= |text|
    ensures r.Go? ==> r.it + r.len <= it + len
  {
    if len == 0 || !Accepts(a, text[it]) then Fail
    else if LagsOn(a, text[it]) then Go(it, len - 1)
    else Go(it + 1, len - 1)
  }

  /** Run a word's atoms one after the other. */
  function Run(w: Word, text: string, it: nat, len: nat): (r: int)
    requires it + len <= |text|
    ensures r >= -1
  {
    if w == [] then it
    else match AtomStep(w[0], text, it, len)
      case Fail => -1
      case Go(it', len') => Run(w[1..], text, it', len')
  }

  predicate Advances(a: Atom, text: string, it: nat, len: nat)
    requires it + len <= |text|
  {
    var step := AtomStep(a, text, it, len);
    step.Go? ==> step.it == it + 1
  }

  /** An atom moves one character on whenever it accepts, unless it is a dot, or an inverted single range with some
      character below its minimum. */
  lemma AtomAdvancesIff(a: Atom)
    ensures (forall text: string, it: nat, len: nat :: it + len <= |text| ==> Advances(a, text, it, len)) <==>
            !AtomLags(a)
  {
    if AtomLags(a) {
      LagsOnLowest(a);
      assert !Advances(a, [LOWEST], 0, 1);
    } else {
      forall text: string, it: nat, len: nat | it + len <= |text|
        ensures Advances(a, text, it, len)
      {
      }
    }
  }

  lemma LagsOnLowest(a: Atom)
    requires AtomLags(a)
    ensures Accepts(a, LOWEST) && LagsOn(a, LOWEST)
  {
    if RangeLags(a) {
      assert a.bounds == [Bounds(a.bounds[0].cmin, a.bounds[0].cmax)];
      OneBound(a.bounds[0].cmin, a.bounds[0].cmax, LOWEST);
    }
  }

  // Texts that a word spells.

  /** w accepts exactly the characters of t. */
  predicate SpelledBy(w: Word, t: string) {
    |w| == |t| && forall i :: 0 <= i < |w| ==> Accepts(w[i], t[i])
  }

  lemma SpelledTail(w: Word, t: string)
    requires w != [] && t != ""
    ensures SpelledBy(w, t) <==> Accepts(w[0], t[0]) && SpelledBy(w[1..], t[1..])
  {
    hide Accepts;
    if Accepts(w[0], t[0]) && SpelledBy(w[1..], t[1..]) {
      assert forall i :: 1 <= i < |w| ==> w[i] == w[1..][i - 1] && t[i] == t[1..][i - 1];
    }
    if SpelledBy(w, t) {
      assert forall i :: 0 <= i < |w| - 1 ==> w[1..][i] == w[i + 1] && t[1..][i] == t[i + 1];
    }
  }

  /** The word without its dots. */
  function NoDots(w: Word): (r: Word)
    ensures |r| <= |w|
  {
    if w == [] then [] else if w[0].Any? then NoDots(w[1..]) else [w[0]] + NoDots(w[1..])
  }

  lemma {:induction false} DotsOrNone(w: Word)
    ensures NoDots(w) == w <==> forall i :: 0 <= i < |w| ==> !w[i].Any?
  {
    if w != [] {
      DotsOrNone(w[1..]);
      assert w == [w[0]] + w[1..];
    }
  }

  lemma SpelledOn(a: Atom, u: Word, text: string, it: nat)
    requires it + 1 + |u| <= |text|
    ensures SpelledBy([a] + u, text[it..it + 1 + |u|])
            <==> Accepts(a, text[it]) && SpelledBy(u, text[it + 1..it + 1 + |u|])
  {
    hide Accepts, SpelledBy;
    var w, t := [a] + u, text[it..it + 1 + |u|];
    SpelledTail(w, t);
    assert w[1..] == u && t[1..] == text[it + 1..it + 1 + |u|];
  }

  lemma StepWithoutLag(a: Atom, text: string, it: nat, len: nat)
    requires it + len <= |text| && len > 0 && NoRangeLags(a)
    ensures AtomStep(a, text, it, len)
         == if a.Any? then Go(it, len - 1) else if Accepts(a, text[it]) then Go(it + 1, len - 1) else Fail
  {
  }

  predicate RoomAndLetters(w: Word, text: string, it: nat, len: nat)
    requires it + len <= |text|
  {
    |w| <= len && SpelledBy(NoDots(w), text[it..it + |NoDots(w)|])
  }

  lemma RoomAfterLetter(w: Word, text: string, it: nat, len: nat)
    requires it + len <= |text| && len > 0 && w != [] && !w[0].Any?
    ensures RoomAndLetters(w, text, it, len)
            <==> Accepts(w[0], text[it]) && RoomAndLetters(w[1..], text, it + 1, len - 1)
  {
    hide Accepts, SpelledBy;
    if |w| <= len {
      SpelledOn(w[0], NoDots(w[1..]), text, it);
    }
  }

  /** The dots of a word that is run take from the length that is left, and from the text nothing. */
  lemma {:induction false} RunDots(w: Word, text: string, it: nat, len: nat)
    requires it + len <= |text| && forall i :: 0 <= i < |w| ==> NoRangeLags(w[i])
    ensures Run(w, text, it, len) == if RoomAndLetters(w, text, it, len) then it + |NoDots(w)| else -1
    decreases |w|
  {
    if w == [] {
      assert SpelledBy([], text[it..it]);
    } else if len > 0 {
      hide Accepts, NoRangeLags, RoomAndLetters, AtomStep;
      StepWithoutLag(w[0], text, it, len);
      if w[0].Any? {
        RunDots(w[1..], text, it, len - 1);
        RoomAfterDot(w, text, it, len);
      } else {
        RunDots(w[1..], text, it + 1, len - 1);
        RoomAfterLetter(w, text, it, len);
      }
    }
  }

  lemma RoomAfterDot(w: Word, text: string, it: nat, len: nat)
    requires it + len <= |text| && len > 0 && w != [] && w[0].Any?
    ensures RoomAndLetters(w, text, it, len) <==> RoomAndLetters(w[1..], text, it, len - 1)
  {
  }

  lemma {:induction false} RunSpells(w: Word, text: string, it: nat, len: nat)
    requires it + len <= |text| && forall i :: 0 <= i < |w| ==> NeverLags(w[i])
    ensures Run(w, text, it, len) == if |w| <= len && SpelledBy(w, text[it..it + |w|]) then it + |w| else -1
  {
    DotsOrNone(w);
    RunDots(w, text, it, len);
  }

  /** The iterator stays where it is if and only if no atom advances. */
  predicate Stays(w: Word, text: string, it: nat, len: nat)
    requires it + len <= |text|
  {
    |w| <= len && forall i :: 0 <= i < |w| ==> Accepts(w[i], text[it]) && LagsOn(w[i], text[it])
  }

  lemma {:induction false} RunStaysIff(w: Word, text: string, it: nat, len: nat)
    requires it + len <= |text|
    ensures Run(w, text, it, len) == -1 || (it <= Run(w, text, it, len) <= it + |w| && |w| <= len)
    ensures Run(w, text, it, len) == it <==> Stays(w, text, it, len)
    decreases |w|
  {
    if w != [] {
      hide Accepts, LagsOn;
      var step := AtomStep(w[0], text, it, len);
      if step.Go? {
        RunStaysIff(w[1..], text, step.it, step.len);
        assert forall i :: 0 <= i < |w| - 1 ==> w[1..][i] == w[i + 1];
        assert forall i :: 1 <= i < |w| ==> w[i] == w[1..][i - 1];
      }
    }
  }

  /** A word that is run takes as many characters as it has atoms only if none of them lags. */
  lemma {:induction false} RunInFull(w: Word, text: string, it: nat, len: nat)
    requires it + len <= |text| && Run(w, text, it, len) == it + |w|
    ensures |w| <= len && forall i :: 0 <= i < |w| ==> Accepts(w[i], text[it + i]) && !LagsOn(w[i], text[it + i])
    decreases |w|
  {
    if w != [] {
      var step := AtomStep(w[0], text, it, len);
      RunStaysIff(w[1..], text, step.it, step.len);
      hide Accepts, LagsOn, Run;
      RunInFull(w[1..], text, it + 1, len - 1);
      forall i | 0 < i < |w|
        ensures Accepts(w[i], text[it + i]) && !LagsOn(w[i], text[it + i])
      {
        assert w[1..][i - 1] == w[i] && text[it + 1 + (i - 1)] == text[it + i];
      }
      assert text[it + 0] == text[it];
    }
  }

  // The atoms of a pattern.

  /** All atoms of the pattern, at any depth, are of that kind. */
  predicate AllAtoms(items: seq<Item>, kind: Atom -> bool) {
    items == [] || (AllAtoms(Init(items), kind) && ItemAtoms(Last(items), kind))
  }

  predicate ItemAtoms(item: Item, kind: Atom -> bool) {
    match item.body case Single(a) => kind(a) case Group(items) => AllAtoms(items, kind)
  }

  /** Then so are those of its words. */
  lemma {:induction false} WordAtoms(free: bool, items: seq<Item>, kind: Atom -> bool, w: Word)
    requires AllAtoms(items, kind) && Words(free, items, w)
    ensures forall i :: 0 <= i < |w| ==> kind(w[i])
    decreases items, 1
  {
    if items != [] {
      if Taken(free, items, w) {
        var u: Word, v: Word :| Joined(w, u, v) && Words(free, Init(items), u) && OnceOrMore(free, Last(items), v);
        WordAtoms(free, Init(items), kind, u);
        var n := Rounds(free, Last(items), v);
        RoundAtoms(free, Last(items), kind, v, n);
      } else {
        WordAtoms(free, Init(items), kind, w);
      }
    }
  }

  lemma {:induction false} RoundAtoms(free: bool, item: Item, kind: Atom -> bool, v: Word, n: nat)
    requires ItemAtoms(item, kind) && Times(free, item.body, v, n)
    ensures forall i :: 0 <= i < |v| ==> kind(v[i])
    decreases item, n
  {
    if n > 0 {
      var x: Word, y: Word :| Joined(v, x, y) && BodyWord(free, item.body, x) && Times(free, item.body, y, n - 1);
      if item.body.Group? {
        WordAtoms(free, item.body.items, kind, x);
      }
      RoundAtoms(free, item, kind, y, n - 1);
    }
  }

  // Words that some text gets through.

  /** Some character is accepted and passed. A dot needs no character. */
  ghost predicate AtomPasses(a: Atom) {
    a.Any? || exists c: char :: Accepts(a, c) && !LagsOn(a, c)
  }

  /** A word that some text gets through; the strict kind is empty. */
  ghost predicate Passing(strict: bool, w: Word) {
    if strict then w == [] else forall i :: 0 <= i < |w| ==> AtomPasses(w[i])
  }

  lemma PassingJoin(strict: bool, u: Word, v: Word)
    requires Passing(strict, u) && Passing(strict, v)
    ensures Passing(strict, u + v)
  {
  }

  /** Letters that the word passes, dots left out. */
  lemma {:induction false} PassingLetters(w: Word) returns (t: string)
    requires Passing(false, w)
    ensures |t| == |NoDots(w)|
    ensures forall i :: 0 <= i < |t| ==> Accepts(NoDots(w)[i], t[i]) && !LagsOn(NoDots(w)[i], t[i])
  {
    t := "";
    if w != [] {
      hide Accepts, LagsOn;
      assert AtomPasses(w[0]);
      assert forall i :: 0 <= i < |w[1..]| ==> w[1..][i] == w[i + 1];
      t := PassingLetters(w[1..]);
      if !w[0].Any? {
        var c: char :| Accepts(w[0], c) && !LagsOn(w[0], c);
        t := [c] + t;
      }
    }
  }

  lemma {:induction false} PassingRuns(w: Word, text: string, it: nat, len: nat)
    requires it + len <= |text| && |w| <= len
    requires forall i :: 0 <= i < |NoDots(w)| ==> Accepts(NoDots(w)[i], text[it + i])
                                                  && !LagsOn(NoDots(w)[i], text[it + i])
    ensures Run(w, text, it, len) == it + |NoDots(w)|
    decreases |w|
  {
    if w != [] {
      var letters := NoDots(w);
      if w[0].Any? {
        PassingRuns(w[1..], text, it, len - 1);
      } else {
        hide Accepts, LagsOn;
        assert letters[0] == w[0] && letters[1..] == NoDots(w[1..]);
        assert Accepts(letters[0], text[it + 0]);
        forall i | 0 <= i < |letters| - 1
          ensures Accepts(NoDots(w[1..])[i], text[it + 1 + i]) && !LagsOn(NoDots(w[1..])[i], text[it + 1 + i])
        {
          assert NoDots(w[1..])[i] == letters[i + 1] && text[it + (i + 1)] == text[it + 1 + i];
        }
        PassingRuns(w[1..], text, it + 1, len - 1);
      }
    }
  }

  /** A text that a passing word gets through: its letters, and something for every dot to use up. */
  lemma PassingText(w: Word) returns (t: string)
    requires Passing(false, w)
    ensures |t| == |w| && Run(w, t, 0, |t|) >= 0
  {
    var letters := PassingLetters(w);
    t := letters + seq(|w| - |letters|, i => LOWEST);
    assert forall i :: 0 <= i < |letters| ==> t[0 + i] == letters[i];
    hide Accepts, LagsOn;
    PassingRuns(w, t, 0, |t|);
  }
}
