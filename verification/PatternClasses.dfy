/** The characters that mean something in the patterns of src/Pattern.cpp, one by one. */
module PatternClasses {
  import opened Chars
  import opened PatternLanguage
  import opened PatternSyntax
  import opened PatternAtoms
  import opened PatternPrinter
  import opened Pattern
  import opened Matcher
  import opened PatternExamples

  // Classes.

  lemma TwoBounds(b: Bounds, d: Bounds, c: char)
    ensures InBounds([b, d], c) <==> InBounds([b], c) || InBounds([d], c)
  {
    assert [b, d][0] == b && [b, d][1] == d && [b][0] == b && [d][0] == d;
  }

  lemma ThreeBounds(b: Bounds, d: Bounds, e: Bounds, c: char)
    ensures InBounds([b, d, e], c) <==> InBounds([b], c) || InBounds([d], c) || InBounds([e], c)
  {
    assert [b, d, e][0] == b && [b, d, e][1] == d && [b, d, e][2] == e;
    assert [b][0] == b && [d][0] == d && [e][0] == e;
  }

  /** Below 128 nothing is signed. */
  lemma PlainRange(lo: char, hi: char, c: char)
    requires lo as int < 128 && hi as int < 128
    ensures InBounds([Bounds(lo, hi)], c) <==> lo <= c <= hi
  {
    OneBound(lo, hi, c);
  }

  /** The characters of a class, letter by letter. */
  lemma InClass(k: char, c: char)
    ensures k == 's' || k == 'S' ==>
              (InBounds(SpecialRange(k), c) <==> c in " \t\r\n" || c == 11 as char || c == 12 as char)
    ensures k == 'd' || k == 'D' ==> (InBounds(SpecialRange(k), c) <==> '0' <= c <= '9')
    ensures k == 'l' || k == 'L' ==> (InBounds(SpecialRange(k), c) <==> 'a' <= c <= 'z')
    ensures k == 'p' || k == 'P' ==> (InBounds(SpecialRange(k), c) <==> c in ".,;:!?")
    ensures k == 'u' || k == 'U' ==> (InBounds(SpecialRange(k), c) <==> 'A' <= c <= 'Z')
    ensures k == 'w' || k == 'W' ==>
              (InBounds(SpecialRange(k), c) <==> 'A' <= c <= 'Z' || 'a' <= c <= 'z' || '0' <= c <= '9')
    ensures k == 'x' || k == 'X' ==>
              (InBounds(SpecialRange(k), c) <==> 'A' <= c <= 'F' || 'a' <= c <= 'f' || '0' <= c <= '9')
    ensures k !in "sSdDlLpPuUwWxX" <==> SpecialRange(k) == []
  {
    hide InBounds;
    match ToLower(k) {
      case 's' => ListedChars(" \t\r\n" + [11 as char, 12 as char], c);
      case 'p' => ListedChars(".,;:!?", c);
      case 'd' => PlainRange('0', '9', c);
      case 'l' => PlainRange('a', 'z', c);
      case 'u' => PlainRange('A', 'Z', c);
      case 'w' =>
        ThreeBounds(Bounds('A', 'Z'), Bounds('a', 'z'), Bounds('0', '9'), c);
        PlainRange('A', 'Z', c);
        PlainRange('a', 'z', c);
        PlainRange('0', '9', c);
      case 'x' =>
        ThreeBounds(Bounds('A', 'F'), Bounds('a', 'f'), Bounds('0', '9'), c);
        PlainRange('A', 'F', c);
        PlainRange('a', 'f', c);
        PlainRange('0', '9', c);
      case _ =>
    }
  }

  /** What an escaped character is read as. */
  function Escaped(k: char): Atom {
    OneOf(if SpecialRange(k) == [] then [Bounds(k, k)] else SpecialRange(k), false)
  }

  /** An escaped letter s, d, l, p, u, w or x, in either case, is read as the class it stands for, any other escaped
      character as that character; and neither ever lags. */
  lemma EscapeIsRead(k: char, r: string, c: char)
    ensures ParseAtom(['%', k] + r) == Ok(Escaped(k), r) && !AtomLags(Escaped(k))
    ensures k in "sS" ==> (Accepts(Escaped(k), c) <==> c in " \t\r\n" || c == 11 as char || c == 12 as char)
    ensures k in "dD" ==> (Accepts(Escaped(k), c) <==> '0' <= c <= '9')
    ensures k in "lL" ==> (Accepts(Escaped(k), c) <==> 'a' <= c <= 'z')
    ensures k in "pP" ==> (Accepts(Escaped(k), c) <==> c in ".,;:!?")
    ensures k in "uU" ==> (Accepts(Escaped(k), c) <==> 'A' <= c <= 'Z')
    ensures k in "wW" ==> (Accepts(Escaped(k), c) <==> 'A' <= c <= 'Z' || 'a' <= c <= 'z' || '0' <= c <= '9')
    ensures k in "xX" ==> (Accepts(Escaped(k), c) <==> 'A' <= c <= 'F' || 'a' <= c <= 'f' || '0' <= c <= '9')
    ensures k !in "sSdDlLpPuUwWxX" ==> (Accepts(Escaped(k), c) <==> c == k)
  {
    var s := ['%', k] + r;
    assert s[0] == '%' && s[1] == k && s[2..] == r;
    InClass(k, c);
    OneBound(k, k, c);
    hide InBounds, SpecialRange, Signed;
    SameSigned(k, c);
  }

  lemma SameSigned(b: char, c: char)
    ensures Signed(b) == Signed(c) <==> b == c
  {
  }

  function EscapedItem(k: char): Item {
    Item(Single(Escaped(k)), false, false)
  }

  lemma ReadEscaped(k: char, rest: string, more: seq<Item>)
    requires ParseItems(rest) == Ok(more, "") && !IsSkip(rest) && !IsLoop(rest)
    ensures ParseItems(['%', k] + rest) == Ok([EscapedItem(k)] + more, "")
  {
    EscapeIsRead(k, rest, k);
    hide ParseAtom, ParseItems;
    ReadItem(['%', k] + rest, Single(Escaped(k)), rest, more);
  }

  lemma ReadOneEscaped(k: char)
    ensures ParsePattern(['%', k]) == Ok([EscapedItem(k)], "")
  {
    ReadNothing();
    hide ParseItems, ParsePattern, Escaped;
    ReadEscaped(k, "", []);
    assert ['%', k] + "" == ['%', k] && [EscapedItem(k)] + [] == [EscapedItem(k)];
    ReadAll(['%', k], [EscapedItem(k)]);
  }

  /** A plain list that never lags matches where its atoms accept the characters one by one. */
  lemma PlainSpells(v: Setting, root: nat, leaf: nat, items: seq<Item>, p: nat)
    requires CompiledAs(v.g, v.nodes, root, leaf, items) && Plain(items) && p <= |v.text|
    requires forall i :: 0 <= i < |items| ==> NeverLags(items[i].body.atom)
    ensures v.Valid() && root in v.nodes && Ends(v, StartAt(v, root, p))
    ensures MatchAt(v, root, p)
         == if p + |items| <= |v.text| && AcceptedFrom(items, v.text, p) then p + |items| else -1
  {
    hide CompiledAs, Ends, MatchAt, Accepts, AtomLags, Atoms;
    PlainMatch(v, root, leaf, items, p);
    AtomsOf(items);
    hide Run, Plain;
    RunSpells(Atoms(items), v.text, p, |v.text| - p);
    if p + |items| <= |v.text| {
      SpelledFrom(items, v.text, p);
    }
  }

  lemma SpelledFrom(items: seq<Item>, text: string, p: nat)
    requires Plain(items) && p + |items| <= |text|
    ensures |Atoms(items)| == |items|
    ensures SpelledBy(Atoms(items), text[p..p + |items|]) <==> AcceptedFrom(items, text, p)
  {
    hide Accepts, Atoms;
    AtomsOf(items);
    var t := text[p..p + |items|];
    forall i | 0 <= i < |items|
      ensures Accepts(Atoms(items)[i], t[i]) <==> Accepts(items[i].body.atom, text[p + i])
    {
      assert t[i] == text[p + i];
    }
  }

  predicate AcceptedFrom(items: seq<Item>, text: string, p: nat)
    requires Plain(items) && p + |items| <= |text|
  {
    forall i :: 0 <= i < |items| ==> Accepts(items[i].body.atom, text[p + i])
  }

  lemma {:induction false} AtomsOf(items: seq<Item>)
    requires Plain(items)
    ensures |Atoms(items)| == |items| && forall i :: 0 <= i < |items| ==> Atoms(items)[i] == items[i].body.atom
  {
    if items != [] {
      AtomsOf(Init(items));
    }
  }

  /** The pattern of one escaped character matches one character of its class, and nothing else. */
  lemma EscapeMatches(v: Setting, root: nat, leaf: nat, k: char, p: nat)
    requires CompiledAs(v.g, v.nodes, root, leaf, [EscapedItem(k)]) && p <= |v.text|
    ensures ParsePattern(['%', k]) == Ok([EscapedItem(k)], "")
    ensures v.Valid() && root in v.nodes && Ends(v, StartAt(v, root, p))
    ensures MatchAt(v, root, p) == if p < |v.text| && Accepts(Escaped(k), v.text[p]) then p + 1 else -1
  {
    ReadOneEscaped(k);
    EscapeIsRead(k, "", k);
    hide CompiledAs, Ends, MatchAt, Accepts, Escaped, ParsePattern, AtomLags;
    PlainSpells(v, root, leaf, [EscapedItem(k)], p);
    if p < |v.text| {
      LoneAccepted(k, v.text, p);
    }
  }

  lemma LoneAccepted(k: char, text: string, p: nat)
    requires p < |text|
    ensures AcceptedFrom([EscapedItem(k)], text, p) <==> Accepts(Escaped(k), text[p])
  {
    hide Accepts, Escaped;
    var items := [EscapedItem(k)];
    assert items[0].body.atom == Escaped(k) && text[p + 0] == text[p];
  }

  // Other characters.

  /** Outside brackets. An opening parenthesis is read before it could come to this. */
  lemma CharacterIsRead(c: char, r: string, d: char)
    ensures c in "])(?*+-^$" ==> ParseAtom([c] + r) == Bad(MisplacedCtrlChar)
    ensures c == '.' ==> ParseAtom([c] + r) == Ok(Any, r)
    ensures c !in "[]().?*+-^$%" || (c == '%' && r == "") ==>
              ParseAtom([c] + r) == Ok(Letter(c), r) && (Accepts(Letter(c), d) <==> d == c)
  {
    assert ([c] + r)[1..] == r;
    OneBound(c, c, d);
    SameSigned(c, d);
    hide SpecialRange, ParseRanges, InBounds;
  }

  /** Inside brackets. */
  lemma BracketCharacter(c: char, r: string)
    ensures c in "[]().?*+-^$" ==> ParseRangeChar([c] + r) == Bad(MisplacedCtrlChar)
    ensures c !in "[]().?*+-^$%" ==> ParseRangeChar([c] + r) == Ok(c, r)
    ensures ParseRangeChar(['%', c] + r) == Ok(c, r) && ParseRangeChar("%") == Bad(MisplacedEscape)
  {
    assert ([c] + r)[1..] == r && (['%', c] + r)[2..] == r;
  }

  /** A range in brackets: it may not end before it starts, and must end before the text does. */
  lemma RangeIsRead(c: char, d: char, r: string)
    requires c !in "[]().?*+-^$%" && d !in "[]().?*+-^$%"
    ensures ParseRange([c, '-', d] + r) == if Signed(c) > Signed(d) then Bad(InvalidRange) else Ok(Bounds(c, d), r)
    ensures r == "" || r[0] != '-' ==> ParseRange([c] + r) == Ok(Bounds(c, c), r)
  {
    BracketCharacter(c, ['-', d] + r);
    BracketCharacter(c, r);
    BracketCharacter(d, r);
    hide ParseRangeChar;
    assert [c, '-', d] + r == [c] + (['-', d] + r) && (['-', d] + r)[1..] == [d] + r;
  }

  lemma RangeIsCutOff(c: char, d: char)
    requires c !in "[]().?*+-^$%" && d !in "[]().?*+-^$%"
    ensures ParseRange([c, '-']) == Bad(MisplacedCtrlChar) && ParseRange([c, '-', '%']) == Bad(MisplacedEscape)
    ensures ParseRange([c, '-', d]).Ok? ==> ParseRanges([c, '-', d]) == Bad(UnclosedBracket)
    ensures ParseRanges("") == Bad(UnclosedBracket)
  {
    BracketCharacter(c, ['-']);
    BracketCharacter(c, ['-', '%']);
    BracketCharacter(c, "");
    RangeIsRead(c, d, "");
    assert [c, '-'] == [c] + ['-'] && ['-'][1..] == "";
    assert [c, '-', '%'] == [c] + ['-', '%'] && ['-', '%'][1..] == "%";
    assert [c, '-', d] + "" == [c, '-', d];
    hide ParseRangeChar;
  }

  /** An empty pair of parentheses, and one that is never closed. */
  lemma ParenthesisIsRead(r: string)
    ensures ParseBody("()" + r) == Bad(EmptyCapture)
    ensures CloseAt(r, 0, false) < 0 ==> ParseBody("(" + r) == Bad(UnclosedParenthesis)
  {
    var s := "()" + r;
    assert s[0] == '(' && s[1..][0] == ')' && ("(" + r)[1..] == r;
    assert CloseAt(s[1..], 0, false) == 0;
    hide CloseAt, ParsePattern;
  }

  /** After an item. */
  lemma QuantifierIsRead(s: string, body: Body, q: char, r: string, more: seq<Item>)
    requires s != [] && ParseBody(s) == Ok(body, [q] + r) && q in "?*-+" && ParseItems(r) == Ok(more, "")
    ensures ParseItems(s) == Ok([Item(body, q in "?*-", q in "*-+")] + more, "")
  {
    hide ParseBody, ParseItems;
    assert ([q] + r)[1..] == r;
    ReadItem(s, body, [q] + r, more);
  }

  /** At both ends of the text. */
  lemma AnchorsAreTakenOff(t: string)
    ensures Core("^" + t + "$") == t && HasStartAnchor("^" + t + "$") && HasEndAnchor("^" + t + "$")
    ensures t != "" && t[0] != '^' ==> !HasStartAnchor(t)
    ensures t != "" && t[|t| - 1] != '$' ==> !HasEndAnchor(t)
  {
    var s := "^" + t + "$";
    assert s[1..] == t + "$" && s[1..][..|t|] == t;
    assert t != "" && t[|t| - 1] != '$' ==> |t| >= 1 && (|t| > 1 ==> t[1..][|t| - 2] == t[|t| - 1]);
  }

  // A date.

  const D := EscapedItem('d')
  const SLASH := One('/')
  const DATE := [D, D, SLASH, D, D, SLASH, D, D, D, D]

  lemma ReadTwoDigits(rest: string, more: seq<Item>)
    requires ParseItems(rest) == Ok(more, "") && !IsSkip(rest) && !IsLoop(rest)
    ensures ParseItems("%d%d" + rest) == Ok([D, D] + more, "")
  {
    hide ParseItems, Escaped;
    ReadEscaped('d', rest, more);
    ReadEscaped('d', ['%', 'd'] + rest, [D] + more);
    assert ['%', 'd'] + (['%', 'd'] + rest) == "%d%d" + rest;
    assert [D] + ([D] + more) == [D, D] + more;
  }

  lemma ReadSlash(rest: string, more: seq<Item>)
    requires ParseItems(rest) == Ok(more, "") && !IsSkip(rest) && !IsLoop(rest)
    ensures ParseItems("/" + rest) == Ok([SLASH] + more, "")
  {
    hide ParseItems;
    ReadLetter('/', rest);
    ReadItem("/" + rest, Single(Letter('/')), rest, more);
  }

  lemma ReadYear()
    ensures ParseItems("/%d%d%d%d") == Ok([SLASH, D, D, D, D], "")
  {
    ReadNothing();
    hide ParseItems, Escaped;
    ReadTwoDigits("", []);
    assert "%d%d" + "" == "%d%d" && [D, D] + [] == [D, D];
    ReadTwoDigits("%d%d", [D, D]);
    assert "%d%d" + "%d%d" == "%d%d%d%d" && [D, D] + [D, D] == [D, D, D, D];
    ReadSlash("%d%d%d%d", [D, D, D, D]);
    assert "/" + "%d%d%d%d" == "/%d%d%d%d" && [SLASH] + [D, D, D, D] == [SLASH, D, D, D, D];
  }

  lemma ReadMonth()
    ensures ParseItems("/%d%d/%d%d%d%d") == Ok([SLASH, D, D, SLASH, D, D, D, D], "")
  {
    ReadYear();
    hide ParseItems, Escaped;
    ReadTwoDigits("/%d%d%d%d", [SLASH, D, D, D, D]);
    assert "%d%d" + "/%d%d%d%d" == "%d%d/%d%d%d%d" && [D, D] + [SLASH, D, D, D, D] == [D, D, SLASH, D, D, D, D];
    ReadSlash("%d%d/%d%d%d%d", [D, D, SLASH, D, D, D, D]);
    assert "/" + "%d%d/%d%d%d%d" == "/%d%d/%d%d%d%d";
    assert [SLASH] + [D, D, SLASH, D, D, D, D] == [SLASH, D, D, SLASH, D, D, D, D];
  }

  lemma ReadDate()
    ensures ParsePattern("%d%d/%d%d/%d%d%d%d") == Ok(DATE, "")
  {
    ReadMonth();
    hide ParseItems, ParsePattern, Escaped;
    ReadTwoDigits("/%d%d/%d%d%d%d", [SLASH, D, D, SLASH, D, D, D, D]);
    assert "%d%d" + "/%d%d/%d%d%d%d" == "%d%d/%d%d/%d%d%d%d";
    assert [D, D] + [SLASH, D, D, SLASH, D, D, D, D] == DATE;
    ReadAll("%d%d/%d%d/%d%d%d%d", DATE);
  }

  /** The pattern of a date matches exactly two digits, a slash, two digits, a slash and four digits. */
  lemma DateExample(v: Setting, root: nat, leaf: nat, p: nat)
    requires CompiledAs(v.g, v.nodes, root, leaf, DATE) && p + 10 <= |v.text|
    ensures ParsePattern("%d%d/%d%d/%d%d%d%d") == Ok(DATE, "")
    ensures v.Valid() && root in v.nodes && Ends(v, StartAt(v, root, p))
    ensures MatchAt(v, root, p) == p + 10 || MatchAt(v, root, p) == -1
    ensures MatchAt(v, root, p) == p + 10 <==>
            forall i :: p <= i < p + 10 ==>
              if i == p + 2 || i == p + 5 then v.text[i] == '/' else '0' <= v.text[i] <= '9'
  {
    ReadDate();
    DateAtoms(v.text, p);
    hide CompiledAs, Ends, MatchAt, ParsePattern, AcceptedFrom, AtomLags, Escaped;
    PlainSpells(v, root, leaf, DATE, p);
  }

  lemma DateAtoms(text: string, p: nat)
    requires p + 10 <= |text|
    ensures Plain(DATE) && forall i :: 0 <= i < 10 ==> NeverLags(DATE[i].body.atom)
    ensures AcceptedFrom(DATE, text, p) <==>
            forall i :: p <= i < p + 10 ==> if i == p + 2 || i == p + 5 then text[i] == '/' else '0' <= text[i] <= '9'
  {
    EscapeIsRead('d', "", 'd');
    hide Accepts, Escaped;
    forall i | 0 <= i < 10
      ensures NeverLags(DATE[i].body.atom) && DATE[i].body.Single?
      ensures Accepts(DATE[i].body.atom, text[p + i]) <==>
              if i == 2 || i == 5 then text[p + i] == '/' else '0' <= text[p + i] <= '9'
    {
      EscapeIsRead('d', "", text[p + i]);
      SlashAccepts(text[p + i]);
    }
    if AcceptedFrom(DATE, text, p) {
      forall i | p <= i < p + 10
        ensures if i == p + 2 || i == p + 5 then text[i] == '/' else '0' <= text[i] <= '9'
      {
        assert Accepts(DATE[i - p].body.atom, text[p + (i - p)]);
      }
    }
  }

  lemma SlashAccepts(c: char)
    ensures (Accepts(Letter('/'), c) <==> c == '/') && NeverLags(Letter('/'))
  {
    OneBound('/', '/', c);
    SameSigned('/', c);
  }
}
