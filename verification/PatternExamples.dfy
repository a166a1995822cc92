/** Concrete pattern texts for `src/Pattern.cpp`: where the compiled language is not the expected one, where it is
    although an inner list lost a word, where a match is missed, and where the matcher never ends. */
module PatternExamples {
  import opened PatternLanguage
  import opened PatternSyntax
  import opened PatternAtoms
  import opened PatternGraph
  import opened PatternTraps
  import opened PatternLayout
  import opened Pattern
  import opened PatternPrinter
  import opened Matcher
  import opened MatcherWords
  import opened MatcherHalting
  import opened MatcherRight

  // Reading the texts.

  function Letter(c: char): Atom {
    OneOf([Bounds(c, c)], false)
  }

  function One(c: char): Item {
    Item(Single(Letter(c)), false, false)
  }

  function Maybe(body: Body): Item {
    Item(body, true, false)
  }

  lemma ReadLetter(c: char, rest: string)
    requires !IsInternalChar(c) && c != '%'
    ensures ParseBody([c] + rest) == Ok(Single(Letter(c)), rest)
  {
    assert ([c] + rest)[1..] == rest;
  }

  predicate NoParenthesis(t: string) {
    forall i :: 0 <= i < |t| ==> t[i] != '(' && t[i] != ')' && t[i] != '%'
  }

  lemma {:induction false} CloseBehind(t: string, rest: string)
    requires NoParenthesis(t)
    ensures CloseAt(t + ([')'] + rest), 0, false) == |t|
    decreases |t|
  {
    var s := t + ([')'] + rest);
    if t != [] {
      assert s[1..] == t[1..] + ([')'] + rest);
      CloseBehind(t[1..], rest);
    } else {
      assert s[0] == ')';
    }
  }

  lemma ReadMaybeLetter(c: char, rest: string, more: seq<Item>)
    requires !IsInternalChar(c) && c != '%' && ParseItems(rest) == Ok(more, "")
    ensures ParseItems([c] + (['?'] + rest)) == Ok([Maybe(Single(Letter(c)))] + more, "")
  {
    ReadLetter(c, ['?'] + rest);
    assert (['?'] + rest)[1..] == rest;
    ReadItem([c] + (['?'] + rest), Single(Letter(c)), ['?'] + rest, more);
  }

  lemma ReadLastLetter(c: char)
    requires !IsInternalChar(c) && c != '%'
    ensures ParseItems([c]) == Ok([One(c)], "")
  {
    ReadNothing();
    ReadLetter(c, "");
    assert [c] + "" == [c];
    ReadItem([c], Single(Letter(c)), "", []);
    assert [One(c)] + [] == [One(c)];
  }

  // Neighbours that can both be left out.

  const MAYBE_A := Maybe(Single(Letter('a')))
  const MAYBE_B := Maybe(Single(Letter('b')))
  const PAIR := [MAYBE_A, MAYBE_B]

  lemma ReadPair(rest: string, more: seq<Item>)
    requires ParseItems(rest) == Ok(more, "")
    ensures ParseItems("a?b?" + rest) == Ok(PAIR + more, "")
  {
    hide ParseItems;
    ReadMaybeLetter('b', rest, more);
    var b := ['b'] + (['?'] + rest);
    ReadMaybeLetter('a', b, [MAYBE_B] + more);
    assert ['a'] + (['?'] + b) == "a?b?" + rest;
    assert [MAYBE_A] + ([MAYBE_B] + more) == PAIR + more;
  }

  const CLASHING := PAIR + [One('c')]

  /** The pattern a?b?c has lost the edge that leaves out both a and b: "c" is expected, and not spelled. */
  lemma AdjacentSkipsExample()
    ensures ParsePattern("a?b?c") == Ok(CLASHING, "")
    ensures Words(true, CLASHING, [Letter('c')]) && !Words(false, CLASHING, [Letter('c')])
  {
    ReadLastLetter('c');
    ReadPair("c", [One('c')]);
    assert "a?b?c" == "a?b?" + "c";
    hide ParseItems;
    ReadAll("a?b?c", CLASHING);
    hide ParsePattern, Words;
    ShortestOfClashing();
    ShortestIsExpected(CLASHING);
    if Words(false, CLASHING, [Letter('c')]) {
      ShortestCompiled(CLASHING);
    }
  }

  lemma ShortestOfClashing()
    ensures Shortest(CLASHING) == [Letter('c')] && !NoOpenClash(CLASHING)
  {
    ShortestOfPair();
    hide NoOpenClashInside;
    assert Init(CLASHING) == PAIR && Last(CLASHING) == One('c');
    assert Shortest(CLASHING) == [] + [Letter('c')] == [Letter('c')];
  }

  lemma ShortestOfPair()
    ensures Init(PAIR) == [MAYBE_A] && Last(PAIR) == MAYBE_B && Init([MAYBE_A]) == []
    ensures Shortest(PAIR) == [] && !NoOpenClash(PAIR)
  {
    assert Init(PAIR) == [MAYBE_A] && Init([MAYBE_A]) == [];
    assert Shortest([MAYBE_A]) == [];
  }

  const MASKED := [Maybe(Group(PAIR))]

  lemma ReadMasked()
    ensures ParsePattern("(a?b?)?") == Ok(MASKED, "")
  {
    hide ParseItems, ParseBody, ParsePattern;
    ReadNothing();
    ReadPair("", []);
    assert "a?b?" + "" == "a?b?" && PAIR + [] == PAIR;
    var s := "(a?b?)?";
    MaskedText(s);
    ReadGroup(s, 4, "a?b?", PAIR, "?");
    ReadItem(s, Group(PAIR), "?", []);
    assert MASKED + [] == MASKED;
    ReadAll(s, MASKED);
  }

  lemma MaskedText(s: string)
    requires s == "(a?b?)?"
    ensures s[1..] == "a?b?)?" && s[1..5] == "a?b?" && s[6..] == "?" && AfterQuantifier("?") == ""
    ensures CloseAt(s[1..], 0, false) == 4
  {
    hide CloseAt;
    assert s[1..] == "a?b?" + ([')'] + "?");
    CloseBehind("a?b?", "?");
  }

  /** An item around the clash that can itself be left out may make up for the lost word: (a?b?)? has the expected
      language, although the list in its group has not. */
  lemma MaskedClashExample()
    ensures ParsePattern("(a?b?)?") == Ok(MASKED, "")
    ensures SameLanguage(MASKED) && !SameLanguage(PAIR) && !NoClash(MASKED)
  {
    ReadMasked();
    hide ParsePattern, Words;
    ShortestOfPair();
    CompiledIsExpectedIff(PAIR);
    NoClashParts(PAIR);
    assert Last(MASKED) == MASKED[0];
    forall w: Word
      ensures Words(true, MASKED, w) <==> Words(false, MASKED, w)
    {
      if Words(false, MASKED, w) {
        CompiledWithinExpected(MASKED, w);
      } else if Words(true, MASKED, w) {
        MaskedWord(w);
      }
    }
  }

  lemma MaskedWord(w: Word)
    requires Words(true, MASKED, w)
    ensures Words(false, MASKED, w)
  {
    var item := MASKED[0];
    assert MASKED == [] + [item];
    OnlyOnce(true, item, w);
    OnlyOnce(false, item, w);
    hide Words;
    if w != [] {
      PairWord(w);
    }
  }

  lemma OnlyOnce(free: bool, item: Item, w: Word)
    requires item.skip && !item.loop && item.body.Group?
    ensures Words(free, [item], w) <==> w == [] || Words(free, item.body.items, w)
  {
    assert Init([item]) == [] && Last([item]) == item;
    OnceIs(free, item, w);
    hide OnceOrMore;
    assert Words(free, [], []) && Joined(w, [], w);
    assert forall u: Word, v: Word :: Joined(w, u, v) && Words(free, [], u) ==> v == w;
    assert Taken(free, [item], w) <==> OnceOrMore(free, item, w);
    assert Skipped(free, [item], w) <==> w == [];
    assert BodyWord(free, item.body, w) <==> Words(free, item.body.items, w);
  }

  /** Nothing but the empty word is lost. */
  lemma PairWord(w: Word)
    requires Words(true, PAIR, w) && w != []
    ensures Words(false, PAIR, w)
  {
    ShortestOfPair();
    assert NoClash([MAYBE_A]) by {
      assert NoClash([]) && NoClashInside(MAYBE_A);
    }
    hide Words;
    if Taken(true, PAIR, w) {
      var u: Word, v: Word :| Joined(w, u, v) && Words(true, [MAYBE_A], u) && OnceOrMore(true, MAYBE_B, v);
      ExpectedWithinCompiled([MAYBE_A], u);
      OnceWithinCompiled(MAYBE_B, v);
      assert Joined(w, u, v) && Words(false, Init(PAIR), u) && OnceOrMore(false, Last(PAIR), v);
      assert Taken(false, PAIR, w);
    } else {
      assert Skipped(true, PAIR, w);
      assert !Skipped(true, [MAYBE_A], w);
      ExpectedWithinCompiled([MAYBE_A], w);
      assert Skipped(false, PAIR, w);
    }
  }

  // Plain lists of atoms.

  predicate Plain(items: seq<Item>) {
    forall i :: 0 <= i < |items| ==> items[i].body.Single? && !items[i].skip && !items[i].loop
  }

  function Atoms(items: seq<Item>): Word
    requires Plain(items)
  {
    if items == [] then [] else Atoms(Init(items)) + [Last(items).body.atom]
  }

  /** Without quantifiers and groups there is one word. */
  lemma {:induction false} PlainWord(free: bool, items: seq<Item>, w: Word)
    requires Plain(items)
    ensures Words(free, items, w) <==> w == Atoms(items)
  {
    if items != [] {
      var last := [Last(items).body.atom];
      PlainWord(free, Init(items), Atoms(Init(items)));
      OnceIs(free, Last(items), last);
      if w == Atoms(items) {
        assert Joined(w, Atoms(Init(items)), last) && OnceOrMore(free, Last(items), last);
      }
      if Words(free, items, w) {
        assert !Skipped(free, items, w);
        assert Taken(free, items, w);
        var u: Word, v: Word :| Joined(w, u, v) && Words(free, Init(items), u) && OnceOrMore(free, Last(items), v);
        PlainWord(free, Init(items), u);
        OnceIs(free, Last(items), v);
      }
    }
  }

  lemma {:induction false} PlainEnds(items: seq<Item>)
    requires Plain(items)
    ensures NoNullableLoops(items)
  {
    if items != [] {
      PlainEnds(Init(items));
    }
  }

  /** What the loop returns for the one word of a plain list. */
  lemma PlainMatch(v: Setting, root: nat, leaf: nat, items: seq<Item>, p: nat)
    requires CompiledAs(v.g, v.nodes, root, leaf, items) && Plain(items) && p <= |v.text|
    ensures v.Valid() && root in v.nodes && Ends(v, StartAt(v, root, p))
    ensures MatchAt(v, root, p) == Run(Atoms(items), v.text, p, |v.text| - p)
  {
    hide Words, Ends, Final, Run, CompiledAs, NoNullableLoops;
    PlainEnds(items);
    NoNullableLoopsEnd(v.g, v.nodes, root, leaf, items);
    assert LoopEnds(v.g, v.nodes, root, v.text, p);
    MatchInText(v, root, p);
    MatchOnCompiled(v, root, leaf, items, p);
    PlainWord(false, items, Atoms(items));
    if w: Word :| Words(false, items, w) && Run(w, v.text, p, |v.text| - p) == MatchAt(v, root, p) {
      PlainWord(false, items, w);
    }
  }

  // A range node that does not advance.

  const NOT_B_TO_D := OneOf([Bounds('b', 'd')], true)
  const LAGGING := [Item(Single(NOT_B_TO_D), false, false), One('x')]

  lemma ReadLagging()
    ensures ParsePattern("[^b-d]x") == Ok(LAGGING, "")
  {
    var s := "[^b-d]x";
    ReadLastLetter('x');
    assert ParseAtom(s) == Ok(NOT_B_TO_D, "x") by {
      var r := "b-d]x";
      assert s[2..] == r && r[1..] == "-d]x" && "-d]x"[1..] == "d]x" && "d]x"[1..] == "]x" && "]x"[1..] == "x";
      assert ParseRange(r) == Ok(Bounds('b', 'd'), "]x");
      assert ParseRanges("]x") == Ok([], "x");
      assert [Bounds('b', 'd')] + [] == [Bounds('b', 'd')];
    }
    hide ParseItems, ParseAtom;
    assert ParseBody(s) == Ok(Single(NOT_B_TO_D), "x");
    ReadItem(s, Single(NOT_B_TO_D), "x", [One('x')]);
    assert [LAGGING[0]] + [One('x')] == LAGGING;
    ReadAll(s, LAGGING);
  }

  lemma LaggingLanguage(w: Word, text: string)
    requires w == [NOT_B_TO_D, Letter('x')] && SpelledBy(w, text) && |text| == 2 && Run(w, text, 0, 2) == -1
    ensures Expected(LAGGING, text)
    ensures forall u: Word :: Words(false, LAGGING, u) ==> Run(u, text, 0, 2) < 0
  {
    LaggingWord(w);
    hide Words, Run, SpelledBy;
    PlainWord(true, LAGGING, w);
    assert Words(true, LAGGING, w) && SpelledBy(w, text);
    forall u: Word | Words(false, LAGGING, u)
      ensures Run(u, text, 0, 2) < 0
    {
      PlainWord(false, LAGGING, u);
    }
  }

  /** [^b-d]x describes "ax" and does not match it: the range node accepts 'a' without moving past it. */
  lemma LagExample(g: Graph, s: set<nat>, root: nat, leaf: nat)
    requires CompiledAs(g, s, root, leaf, LAGGING)
    ensures ParsePattern("[^b-d]x") == Ok(LAGGING, "") && Expected(LAGGING, "ax")
    ensures forall w: Word :: Words(false, LAGGING, w) ==> Run(w, "ax", 0, 2) < 0
    ensures var v := Setting(g, s, "ax");
            v.Valid() && root in v.nodes && Ends(v, StartAt(v, root, 0)) && MatchAt(v, root, 0) == -1
  {
    hide Words, CompiledAs, ParsePattern, Run, SpelledBy, Ends, Expected, MatchAt, Closed;
    ReadLagging();
    var w := [NOT_B_TO_D, Letter('x')];
    LaggingRuns(w);
    LaggingLanguage(w, "ax");
    LaggingWord(w);
    PlainMatch(Setting(g, s, "ax"), root, leaf, LAGGING, 0);
  }

  lemma LaggingWord(w: Word)
    requires w == [NOT_B_TO_D, Letter('x')]
    ensures Plain(LAGGING) && Atoms(LAGGING) == w
  {
    assert Init(LAGGING) == [LAGGING[0]] && Init([LAGGING[0]]) == [];
    assert Atoms([LAGGING[0]]) == [] + [NOT_B_TO_D];
  }

  lemma LaggingRuns(w: Word)
    requires w == [NOT_B_TO_D, Letter('x')]
    ensures SpelledBy(w, "ax") && Run(w, "ax", 0, 2) == -1
  {
    OneBound('b', 'd', 'a');
    OneBound('x', 'x', 'x');
    OneBound('x', 'x', 'a');
    assert AtomStep(w[0], "ax", 0, 2) == Go(0, 1);
    assert AtomStep(w[1], "ax", 0, 1) == Fail;
    assert w[1..] == [Letter('x')];
    assert Run([Letter('x')], "ax", 0, 1) == -1;
    assert Accepts(w[0], "ax"[0]) && Accepts(w[1], "ax"[1]);
  }

  // A dot, which never advances.

  const DOT := Item(Single(Any), false, false)
  const DOTTED := [DOT, One('b')]

  lemma ReadDotted()
    ensures ParsePattern(".b") == Ok(DOTTED, "")
  {
    ReadLastLetter('b');
    assert ".b"[1..] == "b";
    ReadItem(".b", Single(Any), "b", [One('b')]);
    assert [DOT] + [One('b')] == DOTTED;
    hide ParseItems;
    ReadAll(".b", DOTTED);
  }

  lemma DottedWord(w: Word)
    requires w == [Any, Letter('b')]
    ensures Plain(DOTTED) && Atoms(DOTTED) == w
  {
    assert Init(DOTTED) == [DOT] && Init([DOT]) == [];
    assert Atoms([DOT]) == [] + [Any];
  }

  /** The dot uses up one of the two characters, and the letter is compared with the first. */
  lemma DottedRuns(w: Word, text: string)
    requires w == [Any, Letter('b')] && |text| == 2
    ensures Run(w, text, 0, 2) == if text[0] == 'b' then 1 else -1
    ensures text[1] == 'b' ==> SpelledBy(w, text)
  {
    OneBound('b', 'b', text[0]);
    OneBound('b', 'b', text[1]);
    assert w[1..] == [Letter('b')] && w[1..][1..] == [];
    assert AtomStep(w[0], text, 0, 2) == Go(0, 1);
    assert AtomStep(w[1], text, 0, 1) == if text[0] == 'b' then Go(1, 0) else Fail;
    assert Run([], text, 1, 0) == 1;
    assert Run(w[1..], text, 0, 1) == if text[0] == 'b' then 1 else -1;
  }

  lemma DottedMatch(v: Setting, root: nat, leaf: nat)
    requires CompiledAs(v.g, v.nodes, root, leaf, DOTTED) && |v.text| == 2
    ensures v.Valid() && root in v.nodes && Ends(v, StartAt(v, root, 0))
    ensures MatchAt(v, root, 0) == if v.text[0] == 'b' then 1 else -1
    ensures v.text[1] == 'b' ==> Expected(DOTTED, v.text)
    ensures !Expected(DOTTED, v.text[..1])
  {
    hide Words, CompiledAs, Run, Ends, MatchAt, Closed, Atoms;
    var w := [Any, Letter('b')];
    DottedWord(w);
    PlainWord(true, DOTTED, w);
    PlainMatch(v, root, leaf, DOTTED, 0);
    DottedRuns(w, v.text);
    if u: Word :| Words(true, DOTTED, u) && SpelledBy(u, v.text[..1]) {
      PlainWord(true, DOTTED, u);
    }
  }

  /** .b describes "ab" and does not match it. On "bx" it reports a match of the one character that the letter has
      taken, which it does not describe. */
  lemma DotExample(g: Graph, s: set<nat>, root: nat, leaf: nat)
    requires CompiledAs(g, s, root, leaf, DOTTED)
    ensures ParsePattern(".b") == Ok(DOTTED, "") && Expected(DOTTED, "ab") && !Expected(DOTTED, "b")
    ensures var v := Setting(g, s, "ab");
            v.Valid() && root in v.nodes && Ends(v, StartAt(v, root, 0)) && MatchAt(v, root, 0) == -1
    ensures var v := Setting(g, s, "bx");
            v.Valid() && root in v.nodes && Ends(v, StartAt(v, root, 0)) && MatchAt(v, root, 0) == 1
  {
    hide Words, CompiledAs, ParsePattern, Ends, Expected, MatchAt, Closed;
    ReadDotted();
    DottedMatch(Setting(g, s, "ab"), root, leaf);
    DottedMatch(Setting(g, s, "bx"), root, leaf);
    assert "bx"[..1] == "b";
  }

  /** The pattern `.` on a text that is not empty: every call of `next`, for ever, finds nothing at the start. */
  lemma SameHitExample(g: Graph, s: set<nat>, root: nat, leaf: nat, text: string, k: nat)
    requires CompiledAs(g, s, root, leaf, [DOT]) && text != ""
    ensures ParsePattern(".") == Ok([DOT], "")
    ensures var v := Setting(g, s, text);
            v.Valid() && root in v.nodes && KthCall(v, root, false, false, 0, k, Hit(0, 0))
  {
    hide CompiledAs, Ends, FirstHit, MatchAt;
    ReadDot();
    var v := Setting(g, s, text);
    assert Init([DOT]) == [] && Atoms([DOT]) == [] + [Any] == [Any];
    PlainMatch(v, root, leaf, [DOT], 0);
    assert [Any][1..] == [] && AtomStep(Any, text, 0, |text|) == Go(0, |text| - 1);
    assert NextEnds(v, root, false, 0);
    HitHere(v, root, 0);
    HitRepeats(v, root, false, false, 0, k);
  }

  lemma ReadDot()
    ensures ParsePattern(".") == Ok([DOT], "")
  {
    ReadNothing();
    assert "."[1..] == "";
    ReadItem(".", Single(Any), "", []);
    assert [DOT] + [] == [DOT];
    hide ParseItems;
    ReadAll(".", [DOT]);
  }

  const MAYBE_DOT := Maybe(Single(Any))
  const A_MAYBE_DOT := [One('a'), MAYBE_DOT]

  lemma ReadMaybeDot()
    ensures ParsePattern("a.?") == Ok(A_MAYBE_DOT, "")
  {
    ReadNothing();
    assert ".?"[1..] == "?" && "?"[1..] == "";
    ReadItem(".?", Single(Any), "?", []);
    assert [MAYBE_DOT] + [] == [MAYBE_DOT];
    hide ParseItems;
    ReadLetter('a', ".?");
    assert ['a'] + ".?" == "a.?";
    ReadItem("a.?", Single(Letter('a')), ".?", [MAYBE_DOT]);
    assert [One('a')] + [MAYBE_DOT] == A_MAYBE_DOT;
    ReadAll("a.?", A_MAYBE_DOT);
  }

  lemma MaybeDotParts()
    ensures Init(A_MAYBE_DOT) == [One('a')] && Last(A_MAYBE_DOT) == MAYBE_DOT
    ensures Init([One('a')]) == [] && Atoms([One('a')]) == [Letter('a')]
    ensures NoNullableLoops(A_MAYBE_DOT) && AllAtoms(A_MAYBE_DOT, NoRangeLags) && !AllAtoms(A_MAYBE_DOT, NeverLags)
  {
    assert Init(A_MAYBE_DOT) == [One('a')] && Init([One('a')]) == [];
    assert Atoms([One('a')]) == [] + [Letter('a')];
    assert AllAtoms([One('a')], NoRangeLags) && NoNullableLoops([One('a')]);
  }

  lemma MaybeDotWord(free: bool, w: Word)
    ensures Words(free, A_MAYBE_DOT, w) <==> w == [Letter('a')] || w == [Letter('a'), Any]
  {
    MaybeDotParts();
    var a := [One('a')];
    hide Words, Plain;
    assert Plain(a) by {
      PlainOne();
    }
    PlainWord(free, a, w);
    PlainWord(free, a, [Letter('a')]);
    OnceIs(free, MAYBE_DOT, [Any]);
    WordsAre(free, A_MAYBE_DOT, w);
    WordsAre(free, a, w);
    assert Skipped(free, A_MAYBE_DOT, w) <==> Taken(free, a, w) || (free && Skipped(free, a, w));
    assert !Skipped(free, a, w);
    if Taken(free, A_MAYBE_DOT, w) {
      var u: Word, v: Word :| Joined(w, u, v) && Words(free, a, u) && OnceOrMore(free, MAYBE_DOT, v);
      PlainWord(free, a, u);
      OnceIs(free, MAYBE_DOT, v);
    }
    if w == [Letter('a'), Any] {
      assert Joined(w, [Letter('a')], [Any]) && Words(free, a, [Letter('a')]) && OnceOrMore(free, MAYBE_DOT, [Any]);
    }
  }

  lemma PlainOne()
    ensures Plain([One('a')])
  {
  }

  lemma WordsAre(free: bool, items: seq<Item>, w: Word)
    ensures Words(free, items, w) <==> Taken(free, items, w) || Skipped(free, items, w)
  {
  }

  lemma MaybeDotExpected(text: string, p: nat, end: nat)
    requires p <= end <= |text|
    ensures Expected(A_MAYBE_DOT, text[p..end]) ==> p < end && text[p] == 'a'
    ensures p + 1 == end && text[p] == 'a' ==> Expected(A_MAYBE_DOT, text[p..end])
  {
    hide Words;
    var t, one := text[p..end], [Letter('a')];
    MaybeDotWord(true, one);
    if t != "" {
      OneBound('a', 'a', t[0]);
    }
    assert t != "" && t[0] == 'a' && |t| == 1 ==> SpelledBy(one, t);
    if w: Word :| Words(true, A_MAYBE_DOT, w) && SpelledBy(w, t) {
      MaybeDotWord(true, w);
      assert w[0] == Letter('a') && Accepts(w[0], t[0]);
    }
  }

  /** What can be left out need not be sound: the dot of a.? is only tried where its character is not missed. */
  lemma RightWithDotExample(g: Graph, s: set<nat>, root: nat, leaf: nat, text: string, p: nat)
    requires CompiledAs(g, s, root, leaf, A_MAYBE_DOT) && p <= |text|
    ensures ParsePattern("a.?") == Ok(A_MAYBE_DOT, "") && !Sound(A_MAYBE_DOT)
    ensures Closed(g, s) && root in s && RightAt(g, s, root, A_MAYBE_DOT, text, p)
  {
    hide Words, CompiledAs, ParsePattern, Ends, Expected, MatchAt, Closed, AllAtoms, NoNullableLoops, SpelledBy;
    ReadMaybeDot();
    MaybeDotParts();
    NoNullableLoopsEnd(g, s, root, leaf, A_MAYBE_DOT);
    assert LoopEnds(g, s, root, text, p);
    var v := Setting(g, s, text);
    MatchInText(v, root, p);
    MatchWithDots(v, root, leaf, A_MAYBE_DOT, p);
    var r := MatchAt(v, root, p);
    if r >= 0 {
      var w: Word :| Words(false, A_MAYBE_DOT, w) && SpellsLetters(v, w, p, r);
      MaybeDotWord(false, w);
      LettersOfMaybeDot(v, w, p, r);
      MaybeDotExpected(text, p, r);
    } else {
      forall end | p <= end <= |text|
        ensures !Expected(A_MAYBE_DOT, text[p..end])
      {
        MaybeDotExpected(text, p, end);
        MaybeDotWord(false, [Letter('a')]);
        LettersOfMaybeDot(v, [Letter('a')], p, p + 1);
      }
    }
  }

  lemma LettersOfMaybeDot(v: Setting, w: Word, p: nat, end: nat)
    requires w == [Letter('a')] || w == [Letter('a'), Any]
    ensures SpellsLetters(v, w, p, end) <==> p + |w| <= |v.text| && end == p + 1 && v.text[p] == 'a'
  {
    assert NoDots(w) == [Letter('a')] by {
      assert |w| == 2 ==> w[1..] == [Any] && [Any][1..] == [];
      assert |w| == 1 ==> w[1..] == [];
    }
    if p + 1 <= |v.text| {
      OneBound('a', 'a', v.text[p]);
      assert v.text[p..p + 1] == [v.text[p]];
    }
  }

  // An end anchor that looks no further than the first match.

  /** a$ on "aba": the first match stops short of the end, and the one at the end is never tried. */
  lemma EndAnchorExample(g: Graph, s: set<nat>, root: nat, leaf: nat)
    requires CompiledAs(g, s, root, leaf, [One('a')])
    ensures HasEndAnchor("a$") && !HasStartAnchor("a$") && ParsePattern(Core("a$")) == Ok([One('a')], "")
    ensures var v := Setting(g, s, "aba");
            && v.Valid() && root in v.nodes && NextEnds(v, root, false, 0)
            && NextSpec(v, root, false, true, 0) == Miss(0)
            && Ends(v, StartAt(v, root, 2)) && MatchAt(v, root, 2) == |v.text|
  {
    hide ParseItems, ParsePattern, CompiledAs, Ends, FirstHit, MatchAt, Run;
    ReadLastLetter('a');
    assert "a$"[..1] == ['a'];
    ReadAll(['a'], [One('a')]);
    var v := Setting(g, s, "aba");
    assert Init([One('a')]) == [] && Atoms([One('a')]) == [] + [Letter('a')] == [Letter('a')];
    LetterRuns(0);
    LetterRuns(2);
    PlainMatch(v, root, leaf, [One('a')], 0);
    PlainMatch(v, root, leaf, [One('a')], 2);
    assert NextEnds(v, root, false, 0);
    HitHere(v, root, 0);
  }

  lemma LetterRuns(p: nat)
    requires p == 0 || p == 2
    ensures Run([Letter('a')], "aba", p, 3 - p) == p + 1
  {
    OneBound('a', 'a', 'a');
    assert AtomStep(Letter('a'), "aba", p, 3 - p) == Go(p + 1, 2 - p);
    assert [Letter('a')][1..] == [];
  }

  // Repeated groups that can be empty.

  const MAYBE_AGAIN := Item(Group([MAYBE_A]), false, true)
  const LOOPING := [MAYBE_AGAIN]

  lemma ReadMaybeAgain(s: string)
    requires s == "(a?)+"
    ensures ParseItems(s) == Ok(LOOPING, "")
  {
    ReadNothing();
    ReadMaybeLetter('a', "", []);
    assert ['a'] + (['?'] + "") == "a?" && [MAYBE_A] + [] == [MAYBE_A];
    hide CloseAt, ParseItems, ParseBody;
    CloseBehind("a?", "+");
    assert s[1..] == "a?" + ([')'] + "+") && s[1..3] == "a?" && s[4..] == "+" && "+"[1..] == "";
    ReadGroup(s, 2, "a?", [MAYBE_A], "+");
    ReadItem(s, Group([MAYBE_A]), "+", []);
    assert [MAYBE_AGAIN] + [] == LOOPING;
  }

  lemma MaybeCanBeEmpty()
    ensures BodyNullable(MAYBE_AGAIN) && !NoNullableLoops(LOOPING) && Trapped(true, LOOPING)
  {
    assert Init([MAYBE_A]) == [] && Last([MAYBE_A]) == MAYBE_A;
    assert EmptySkipped([MAYBE_A]);
    assert Init(LOOPING) == [] && Last(LOOPING) == MAYBE_AGAIN;
    assert Words(false, [], []) && Passing(true, []);
  }

  /** (a?)+ never comes to an end: not on any text, not from any position, not after any number of turns. */
  lemma NeverEndingExample(g: Graph, s: set<nat>, root: nat, leaf: nat, text: string, p: nat)
    requires CompiledAs(g, s, root, leaf, LOOPING) && p <= |text|
    ensures ParsePattern("(a?)+") == Ok(LOOPING, "")
    ensures var v := Setting(g, s, text);
            v.Valid() && root in v.nodes && forall m: nat :: Turns(v, StartAt(v, root, p), m).Looking?
  {
    ReadMaybeAgain("(a?)+");
    ReadAll("(a?)+", LOOPING);
    hide ParseItems, ParsePattern, CompiledAs, Turns;
    MaybeCanBeEmpty();
    StrictlyTrappedLoops(g, s, root, leaf, LOOPING, text, p);
    var v := Setting(g, s, text);
    forall m: nat
      ensures Turns(v, StartAt(v, root, p), m).Looking?
    {
      assert !Turns(v, StartAt(v, root, p), m).Halted?;
    }
  }

  // A repeated group that can be empty, out of the search's reach.

  const ALL := Item(Single(Any), true, true)
  const X_MAYBE_AGAIN := [One('x'), MAYBE_AGAIN]
  const HIDDEN := [ALL, Maybe(Group(X_MAYBE_AGAIN))]

  lemma ReadHidden()
    ensures ParsePattern(".*(x(a?)+)?") == Ok(HIDDEN, "")
  {
    hide CloseAt, ParseItems, ParsePattern, ParseBody, IsSkip, IsLoop;
    var s := ".*(x(a?)+)?";
    ReadXGroup("(x(a?)+)?");
    ReadHiddenStart(s);
    ReadItem(s, Single(Any), "*(x(a?)+)?", [HIDDEN[1]]);
    assert [ALL] + [HIDDEN[1]] == HIDDEN;
    ReadAll(s, HIDDEN);
  }

  lemma ReadXThen(s: string)
    requires s == "x(a?)+"
    ensures ParseItems(s) == Ok(X_MAYBE_AGAIN, "")
  {
    hide CloseAt, ParseItems, ParseBody;
    ReadMaybeAgain("(a?)+");
    ReadLetter('x', "(a?)+");
    assert ['x'] + "(a?)+" == s;
    ReadItem(s, Single(Letter('x')), "(a?)+", LOOPING);
    assert [One('x')] + LOOPING == X_MAYBE_AGAIN;
  }

  lemma ReadXGroup(s: string)
    requires s == "(x(a?)+)?"
    ensures ParseItems(s) == Ok([HIDDEN[1]], "")
  {
    hide CloseAt, ParseItems, ParseBody;
    ReadXThen("x(a?)+");
    HiddenText(s);
    ReadNothing();
    ReadGroup(s, 6, "x(a?)+", X_MAYBE_AGAIN, "?");
    ReadItem(s, Group(X_MAYBE_AGAIN), "?", []);
    assert [HIDDEN[1]] + [] == [HIDDEN[1]];
  }

  lemma ReadHiddenStart(s: string)
    requires s == ".*(x(a?)+)?"
    ensures ParseBody(s) == Ok(Single(Any), "*(x(a?)+)?") && AfterQuantifier("*(x(a?)+)?") == "(x(a?)+)?"
    ensures IsSkip("*(x(a?)+)?") && IsLoop("*(x(a?)+)?")
  {
    assert s[1..] == "*(x(a?)+)?" && "*(x(a?)+)?"[1..] == "(x(a?)+)?";
  }

  lemma HiddenText(s: string)
    requires s == "(x(a?)+)?"
    ensures s[1..7] == "x(a?)+" && s[8..] == "?" && AfterQuantifier("?") == ""
    ensures CloseAt(s[1..], 0, false) == 6
  {
    var s1, s2 := s[1..], s[2..];
    assert s1[1..] == s2 && s2[1..] == s[3..] && s[3..][1..] == s[4..] && s[4..][1..] == s[5..] && s[5..][1..] == s[6..]
        && s[6..][1..] == s[7..];
    assert CloseAt(s[7..], 0, false) == 0;
    assert CloseAt(s[6..], 0, false) == 1;
    assert CloseAt(s[5..], 1, false) == 2;
    assert CloseAt(s[4..], 1, false) == 3;
    assert CloseAt(s[3..], 1, false) == 4;
    assert CloseAt(s2, 0, false) == 5;
  }

  lemma JointGives(cells: seq<Cell>, a: nat, c: nat, next: seq<nat>)
    requires a < |cells| && cells[a].next + [c] == next
    ensures Joint(cells, a, c) == cells[a := Cell(cells[a].adds, next)]
  {
  }

  /** The group (a?) behind three nodes. */
  lemma LayMaybe(base: seq<Cell>)
    requires |base| == 3
    ensures LayBody(base, MAYBE_AGAIN.body)
         == Laid(base + [Cell([Letter('a')], [5]), Cell([], [3, 5]), END], 4, 5, -1)
  {
    hide LayItems, Close;
    var a := Cell([Letter('a')], []);
    LayNothing(base);
    LayItemsMore(base, [], MAYBE_A);
    assert [] + [MAYBE_A] == [MAYBE_A];
    assert LayItems(base, [MAYBE_A]) == Laid(base + [a, Cell([], [3])], 4, 3, 4) by {
      JointGives(base + [a] + [END], 4, 3, [3]);
    }
    CloseMaybe(base, a);
  }

  lemma CloseMaybe(base: seq<Cell>, a: Cell)
    requires |base| == 3 && a == Cell([Letter('a')], [])
    ensures Close(Laid(base + [a, Cell([], [3])], 4, 3, 4))
         == Laid(base + [Cell([Letter('a')], [5]), Cell([], [3, 5]), END], 4, 5, -1)
  {
    var cells := base + [a, Cell([], [3])] + [END];
    JointGives(cells, 3, 5, [5]);
    JointGives(Joint(cells, 3, 5), 4, 5, [3, 5]);
    assert Joint(Joint(cells, 3, 5), 4, 5) == base + [Cell([Letter('a')], [5]), Cell([], [3, 5]), END];
  }

  /** The group (x(a?)+) behind two nodes. */
  lemma LayRepeated(base: seq<Cell>)
    requires |base| == 2
    ensures LayBody(base, Group(X_MAYBE_AGAIN))
         == Laid(base + [Cell([Letter('x')], [4]), Cell([Letter('a')], [5]), Cell([], [3, 5]), Cell([], [4])], 2, 5, -1)
  {
    hide LayItems;
    var x := Cell([Letter('x')], []);
    LayNothing(base);
    LayItemsMore(base, [], One('x'));
    assert [] + [One('x')] == [One('x')];
    LayItemsMore(base, [One('x')], MAYBE_AGAIN);
    assert [One('x')] + [MAYBE_AGAIN] == X_MAYBE_AGAIN;
    var cells := base + [x];
    LayMaybe(cells);
    var after := cells + [Cell([Letter('a')], [5]), Cell([], [3, 5]), END];
    JointGives(after, 5, 4, [4]);
    JointGives(Joint(after, 5, 4), 2, 4, [4]);
    assert Joint(Joint(after, 5, 4), 2, 4)
        == base + [Cell([Letter('x')], [4]), Cell([Letter('a')], [5]), Cell([], [3, 5]), Cell([], [4])];
  }

  lemma LayHidden()
    ensures LayPattern(HIDDEN).head == 1
    ensures LayPattern(HIDDEN).cells
         == [Cell([Any], [0, 2, 6]), Cell([], [0, 2]), Cell([Letter('x')], [4]), Cell([Letter('a')], [5]),
             Cell([], [3, 5]), Cell([], [4, 6]), END]
  {
    hide LayItems, LayBody;
    LayNothing([]);
    LayItemsMore([], [], ALL);
    assert [] + [ALL] == [ALL];
    LayAny();
    var first := [Cell([Any], [0]), Cell([], [0])];
    assert LayItems([], [ALL]) == Laid(first, 1, 0, 1) by {
      var c := [Cell([Any], [])];
      JointGives(c + [END], 0, 0, [0]);
      JointGives(Joint(c + [END], 0, 0), 1, 0, [0]);
    }
    LayItemsMore([], [ALL], HIDDEN[1]);
    assert [ALL] + [HIDDEN[1]] == HIDDEN;
    LayRepeated(first);
    var group := [Cell([Letter('x')], [4]), Cell([Letter('a')], [5]), Cell([], [3, 5]), Cell([], [4])];
    LinkHidden(first, group);
  }

  lemma LayAny()
    ensures LayBody([], Single(Any)) == Laid([Cell([Any], [])], 0, 0, -1)
  {
  }

  lemma LinkHidden(first: seq<Cell>, group: seq<Cell>)
    requires first == [Cell([Any], [0]), Cell([], [0])]
    requires group == [Cell([Letter('x')], [4]), Cell([Letter('a')], [5]), Cell([], [3, 5]), Cell([], [4])]
    ensures EndLoop(Close(LinkOn(Laid(first + group, 1, 0, 1), 2, 5, true, false)))
         == Laid([Cell([Any], [0, 2, 6]), Cell([], [0, 2]), Cell([Letter('x')], [4]), Cell([Letter('a')], [5]),
                  Cell([], [3, 5]), Cell([], [4, 6]), END], 1, 6, -1)
  {
    JointGives(first + group, 1, 2, [0, 2]);
    var c1 := Joint(first + group, 1, 2);
    assert c1 == [Cell([Any], [0]), Cell([], [0, 2])] + group;
    JointGives(c1, 0, 2, [0, 2]);
    var c2 := Joint(c1, 0, 2);
    assert c2 == [Cell([Any], [0, 2]), Cell([], [0, 2])] + group;
    JointGives(c2 + [END], 5, 6, [4, 6]);
    var c3 := Joint(c2 + [END], 5, 6);
    assert c3 == [Cell([Any], [0, 2]), Cell([], [0, 2])] + group[..3] + [Cell([], [4, 6]), END];
    JointGives(c3, 0, 6, [0, 2, 6]);
    assert Joint(c3, 0, 6) == [Cell([Any], [0, 2, 6]), Cell([], [0, 2])] + group[..3] + [Cell([], [4, 6]), END];
  }

  // The graph of that pattern.

  ghost predicate HiddenGraph(v: Setting) {
    && v.Valid() && |v.g| == 7 && 0 in v.nodes && 1 in v.nodes && 2 in v.nodes && 6 in v.nodes
    && v.Next(0) == [0, 2, 6] && v.Next(1) == [0, 2] && v.Next(6) == []
    && v.g[0].kind == AnyNode && v.g[1].kind == EndNode && v.g[2].kind != EndNode && v.g[6].kind == EndNode
  }

  /** While length is left, the dot uses it up; with none left, the end of the pattern accepts. */
  lemma {:induction false} UsesUpAll(v: Setting, it: nat, len: nat)
    requires HiddenGraph(v) && it + len <= |v.text| && len > 0
    ensures Search(v, 0, it, len, len + 2).Found?
    decreases len
  {
    assert v.Step(0, it, len) == Go(it, len - 1);
    if len > 1 {
      UsesUpAll(v, it, len - 1);
    } else {
      FailsAtEnd(v, 0, it, 2);
      FailsAtEnd(v, 2, it, 2);
      assert Search(v, 6, it, 0, 2) == Found(it);
      assert SearchFrom(v, 0, 2, it, 0, 2) == Found(it);
      assert SearchFrom(v, 0, 1, it, 0, 2) == Found(it);
    }
    assert SearchFrom(v, 0, 0, it, len - 1, len + 1).Found?;
  }

  lemma FailsAtEnd(v: Setting, n: nat, it: nat, depth: nat)
    requires v.At(n, it, 0) && v.g[n].kind != EndNode && depth > 0
    ensures Search(v, n, it, 0, depth) == Failed
  {
  }

  lemma HiddenSearched(v: Setting, p: nat)
    requires HiddenGraph(v) && p <= |v.text|
    ensures Searched(v, 1, p, |v.text| - p)
  {
    var len := |v.text| - p;
    var depth := len + 2;
    if len > 0 {
      UsesUpAll(v, p, len);
    } else {
      FailsAtEnd(v, 0, p, depth);
      FailsAtEnd(v, 2, p, depth);
      assert SearchFrom(v, 1, 2, p, len, depth) == Failed;
      assert SearchFrom(v, 1, 1, p, len, depth) == Failed;
    }
    assert SearchFrom(v, 1, 0, p, len, depth) != Unfinished;
    assert Search(v, 1, p, len, depth + 1) != Unfinished;
  }

  lemma CellOf(g: Graph, n: nat, c: Cell)
    requires n < |g| && Cells(g)[n] == c
    ensures Label(g[n]) == c.adds && g[n].next == c.next
    ensures c.adds == [] <==> g[n].kind == EndNode
    ensures c.adds == [Any] ==> g[n].kind == AnyNode
  {
  }

  lemma HiddenIsLaid(v: Setting)
    requires v.Valid() && 1 in v.nodes && Cells(v.g) == LayPattern(HIDDEN).cells
    ensures HiddenGraph(v)
  {
    LayHidden();
    hide LayPattern, Cells, Label, AtomOf;
    CellOf(v.g, 0, Cell([Any], [0, 2, 6]));
    CellOf(v.g, 1, Cell([], [0, 2]));
    CellOf(v.g, 2, Cell([Letter('x')], [4]));
    CellOf(v.g, 6, END);
    assert v.Next(1)[0] in v.nodes && v.Next(1)[1] in v.nodes;
    assert v.Next(0)[2] in v.nodes;
  }

  lemma HiddenRepeats()
    ensures !NoNullableLoops(HIDDEN)
  {
    MaybeCanBeEmpty();
    assert Last(HIDDEN) == HIDDEN[1] && Last(X_MAYBE_AGAIN) == MAYBE_AGAIN && Last(LOOPING) == MAYBE_AGAIN;
    assert !NoNullableLoops(X_MAYBE_AGAIN);
  }

  lemma HiddenEnds(v: Setting, p: nat)
    requires v.Valid() && LayPattern(HIDDEN).head in v.nodes && Cells(v.g) == LayPattern(HIDDEN).cells && p <= |v.text|
    ensures Ends(v, StartAt(v, LayPattern(HIDDEN).head, p))
  {
    hide LayPattern, Ends, Searched, Cells, HiddenGraph, Closed;
    LayHidden();
    HiddenIsLaid(v);
    HiddenSearched(v, p);
    EndsIffSearched(v, 1, p, |v.text| - p);
  }

  /** .*(x(a?)+)? repeats a group that can be empty, and ends on every text all the same: the dot has used up the whole
      length before the search comes to the group. */
  lemma HiddenTrapExample(g: Graph, s: set<nat>, root: nat, leaf: nat, text: string, p: nat)
    requires CompiledAs(g, s, root, leaf, HIDDEN) && p <= |text|
    requires Cells(g) == LayPattern(HIDDEN).cells && root == LayPattern(HIDDEN).head
    ensures ParsePattern(".*(x(a?)+)?") == Ok(HIDDEN, "")
    ensures !NoNullableLoops(HIDDEN)
    ensures Closed(g, s) && root in s && LoopEnds(g, s, root, text, p)
  {
    hide CompiledAs, LayPattern, Ends, ParsePattern, NoNullableLoops, Cells, Closed;
    ReadHidden();
    HiddenRepeats();
    CompiledParts(Setting(g, s, text), root, leaf, HIDDEN, p, |text| - p);
    HiddenEnds(Setting(g, s, text), p);
  }
}
