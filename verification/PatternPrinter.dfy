/** Pattern texts for syntax trees: exactly the trees that some text of src/Pattern.cpp reads as have one. */
module PatternPrinter {
  import opened Chars
  import opened PatternLanguage
  import opened PatternSyntax
  import opened Pattern

  // Every character stands escaped in a bracket of its own or with others.

  function ShowRange(b: Bounds): string {
    if b.cmin == b.cmax then ['%', b.cmin] else ['%', b.cmin, '-', '%', b.cmax]
  }

  function ShowRanges(bounds: seq<Bounds>): string {
    if bounds == [] then "]" else ShowRange(bounds[0]) + ShowRanges(bounds[1..])
  }

  function ShowAtom(a: Atom): string {
    match a
    case Any => "."
    case OneOf(bounds, inverted) => (if inverted then "[^" else "[") + ShowRanges(bounds)
  }

  function ShowBody(body: Body): string
    decreases body
  {
    match body
    case Single(a) => ShowAtom(a)
    case Group(items) => "(" + Show(items) + ")"
  }

  function Quantifier(item: Item): string {
    if item.skip && item.loop then "*" else if item.skip then "?" else if item.loop then "+" else ""
  }

  function Show(items: seq<Item>): string
    decreases items
  {
    if items == [] then ""
    else
      assert items[0].body < items[0];
      ShowBody(items[0].body) + (Quantifier(items[0]) + Show(items[1..]))
  }

  /** No empty bracket, no range that ends before it starts, no empty group. */
  predicate Legible(items: seq<Item>)
    decreases items
  {
    items == [] || (LegibleItem(items[0]) && Legible(items[1..]))
  }

  predicate LegibleItem(item: Item)
    decreases item
  {
    LegibleBody(item.body)
  }

  predicate LegibleBody(body: Body)
    decreases body
  {
    match body case Single(a) => LegibleAtom(a) case Group(items) => items != [] && Legible(items)
  }

  predicate LegibleAtom(a: Atom) {
    a.OneOf? ==> a.bounds != [] && Ordered(a.bounds)
  }

  predicate Ordered(bounds: seq<Bounds>) {
    forall i :: 0 <= i < |bounds| ==> Signed(bounds[i].cmin) <= Signed(bounds[i].cmax)
  }

  // Reading back.

  /** One item in front of others that read as `more`. */
  lemma ReadItem(s: string, body: Body, r: string, more: seq<Item>)
    requires s != [] && ParseBody(s) == Ok(body, r) && ParseItems(AfterQuantifier(r)) == Ok(more, "")
    ensures ParseItems(s) == Ok([Item(body, IsSkip(r), IsLoop(r))] + more, "")
  {
    hide ParseBody;
  }

  lemma ReadGroup(s: string, n: nat, inner: string, items: seq<Item>, rest: string)
    requires s != [] && s[0] == '(' && n > 0 && CloseAt(s[1..], 0, false) == n && s[1..1 + n] == inner &&
             s[n + 2..] == rest
    requires ParseItems(inner) == Ok(items, "") && items != []
    ensures ParseBody(s) == Ok(Group(items), rest)
  {
    hide CloseAt, ParseItems;
    assert ParsePattern(inner) == Ok(items, "");
  }

  lemma ReadNothing()
    ensures ParseItems("") == Ok([], "")
  {
  }

  lemma ReadAll(s: string, items: seq<Item>)
    requires ParseItems(s) == Ok(items, "") && items != []
    ensures ParsePattern(s) == Ok(items, "")
  {
    hide ParseItems;
  }

  lemma ReadRange(b: Bounds, r: string)
    requires Signed(b.cmin) <= Signed(b.cmax) && (r == "" || r[0] != '-')
    ensures ParseRange(ShowRange(b) + r) == Ok(b, r)
  {
    var s := ShowRange(b) + r;
    if b.cmin == b.cmax {
      assert s[2..] == r;
    } else {
      var r1 := s[2..];
      assert r1[1..] == ['%', b.cmax] + r && (['%', b.cmax] + r)[2..] == r;
    }
  }

  lemma RangesStart(bounds: seq<Bounds>)
    ensures ShowRanges(bounds) != "" && (bounds == [] || ShowRanges(bounds)[0] == '%')
    ensures ShowRanges(bounds)[0] != '-' && ShowRanges(bounds)[0] != '^'
  {
  }

  lemma {:induction false} ReadRanges(bounds: seq<Bounds>, r: string)
    requires Ordered(bounds)
    ensures ParseRanges(ShowRanges(bounds) + r) == Ok(bounds, r)
  {
    var s := ShowRanges(bounds) + r;
    if bounds == [] {
      assert s[1..] == r;
    } else {
      var more := ShowRanges(bounds[1..]) + r;
      assert s == ShowRange(bounds[0]) + more;
      RangesStart(bounds[1..]);
      assert forall i :: 0 <= i < |bounds| - 1 ==> bounds[1..][i] == bounds[i + 1];
      hide ParseRange;
      ReadRange(bounds[0], more);
      ReadRanges(bounds[1..], r);
      assert [bounds[0]] + bounds[1..] == bounds;
    }
  }

  lemma ReadBracket(bounds: seq<Bounds>, inverted: bool, r: string)
    requires bounds != [] && Ordered(bounds)
    ensures ParseAtom(ShowAtom(OneOf(bounds, inverted)) + r) == Ok(OneOf(bounds, inverted), r)
  {
    hide ParseRanges, ShowRanges, Ordered, SpecialRange;
    var s, ranges := ShowAtom(OneOf(bounds, inverted)) + r, ShowRanges(bounds) + r;
    RangesStart(bounds);
    ReadRanges(bounds, r);
    if inverted {
      assert s[0] == '[' && s[1] == '^' && s[2..] == ranges;
    } else {
      assert s[0] == '[' && s[1..] == ranges && s[1] == ranges[0];
    }
  }

  lemma ReadAtom(a: Atom, r: string)
    requires LegibleAtom(a)
    ensures ParseAtom(ShowAtom(a) + r) == Ok(a, r)
  {
    if a.Any? {
      assert ("." + r)[1..] == r;
    } else {
      hide ParseAtom, ShowAtom;
      ReadBracket(a.bounds, a.inverted, r);
    }
  }

  /** The position k, if there is one, that many characters further on. */
  function Further(n: nat, k: int): int {
    if k < 0 then -1 else n + k
  }

  lemma CloseEscaped(c: char, r: string, level: nat)
    ensures CloseAt(['%', c] + r, level, false) == Further(2, CloseAt(r, level, false))
  {
    var s := ['%', c] + r;
    assert s[1..] == [c] + r && s[1..][1..] == r;
    assert CloseAt([c] + r, level, true) == Further(1, CloseAt(r, level, false));
  }

  lemma ClosePlain(c: char, r: string, level: nat)
    requires c != '%' && c != '(' && c != ')'
    ensures CloseAt([c] + r, level, false) == Further(1, CloseAt(r, level, false))
  {
    assert ([c] + r)[1..] == r;
  }

  lemma CloseRange(b: Bounds, r: string, level: nat)
    ensures CloseAt(ShowRange(b) + r, level, false) == Further(|ShowRange(b)|, CloseAt(r, level, false))
  {
    hide CloseAt;
    if b.cmin == b.cmax {
      CloseEscaped(b.cmin, r, level);
    } else {
      CloseEscaped(b.cmax, r, level);
      var r1 := ['%', b.cmax] + r;
      ClosePlain('-', r1, level);
      CloseEscaped(b.cmin, ['-'] + r1, level);
      assert ShowRange(b) + r == ['%', b.cmin] + (['-'] + r1);
    }
  }

  lemma {:induction false} CloseRanges(bounds: seq<Bounds>, r: string, level: nat)
    ensures CloseAt(ShowRanges(bounds) + r, level, false) == Further(|ShowRanges(bounds)|, CloseAt(r, level, false))
    decreases bounds
  {
    hide CloseAt, ShowRange;
    if bounds == [] {
      ClosePlain(']', r, level);
    } else {
      var more := ShowRanges(bounds[1..]) + r;
      assert ShowRanges(bounds) + r == ShowRange(bounds[0]) + more;
      CloseRange(bounds[0], more, level);
      CloseRanges(bounds[1..], r, level);
    }
  }

  lemma CloseAtom(a: Atom, r: string, level: nat)
    ensures CloseAt(ShowAtom(a) + r, level, false) == Further(|ShowAtom(a)|, CloseAt(r, level, false))
  {
    hide CloseAt, ShowRanges;
    match a {
      case Any => ClosePlain('.', r, level);
      case OneOf(bounds, inverted) =>
        var ranges := ShowRanges(bounds) + r;
        CloseRanges(bounds, r, level);
        if inverted {
          ClosePlain('^', ranges, level);
          ClosePlain('[', ['^'] + ranges, level);
          assert ShowAtom(a) + r == ['['] + (['^'] + ranges);
        } else {
          ClosePlain('[', ranges, level);
          assert ShowAtom(a) + r == ['['] + ranges;
        }
    }
  }

  lemma CloseGroup(inside: string, r: string, level: nat)
    requires CloseAt(inside + ([')'] + r), level + 1, false)
          == Further(|inside|, CloseAt([')'] + r, level + 1, false))
    ensures CloseAt("(" + inside + ")" + r, level, false) == Further(|inside| + 2, CloseAt(r, level, false))
  {
    var s, behind := "(" + inside + ")" + r, [')'] + r;
    assert s[0] == '(' && s[1..] == inside + behind && behind[1..] == r;
    assert CloseAt(behind, level + 1, false) == Further(1, CloseAt(r, level, false));
  }

  lemma {:induction false} CloseBody(body: Body, r: string, level: nat)
    ensures CloseAt(ShowBody(body) + r, level, false) == Further(|ShowBody(body)|, CloseAt(r, level, false))
    decreases body
  {
    hide CloseAt, ShowAtom, Show;
    match body {
      case Single(a) => CloseAtom(a, r, level);
      case Group(items) =>
        CloseItems(items, [')'] + r, level + 1);
        CloseGroup(Show(items), r, level);
    }
  }

  lemma CloseQuantifier(item: Item, r: string, level: nat)
    ensures CloseAt(Quantifier(item) + r, level, false) == Further(|Quantifier(item)|, CloseAt(r, level, false))
  {
    hide CloseAt;
    var q := Quantifier(item);
    if q != "" {
      ClosePlain(q[0], r, level);
      assert q == [q[0]];
    } else {
      assert q + r == r;
    }
  }

  lemma ShowFirst(items: seq<Item>)
    requires items != []
    ensures items[0].body < items[0]
    ensures Show(items) == ShowBody(items[0].body) + (Quantifier(items[0]) + Show(items[1..]))
  {
    assert items[0].body < items[0];
  }

  lemma CloseInTurn(b: string, q: string, m: string, r: string, level: nat)
    requires CloseAt(b + (q + (m + r)), level, false) == Further(|b|, CloseAt(q + (m + r), level, false))
    requires CloseAt(q + (m + r), level, false) == Further(|q|, CloseAt(m + r, level, false))
    requires CloseAt(m + r, level, false) == Further(|m|, CloseAt(r, level, false))
    ensures CloseAt(b + (q + m) + r, level, false) == Further(|b + (q + m)|, CloseAt(r, level, false))
  {
    hide CloseAt;
    assert b + (q + m) + r == b + (q + (m + r));
  }

  lemma {:induction false} CloseItems(items: seq<Item>, r: string, level: nat)
    ensures CloseAt(Show(items) + r, level, false) == Further(|Show(items)|, CloseAt(r, level, false))
    decreases items
  {
    if items == [] {
      assert Show(items) + r == r;
    } else {
      hide CloseAt, ShowBody, Show, Quantifier, Further;
      ShowFirst(items);
      var b, q, more := ShowBody(items[0].body), Quantifier(items[0]), Show(items[1..]);
      CloseItems(items[1..], r, level);
      CloseQuantifier(items[0], more + r, level);
      CloseBody(items[0].body, q + (more + r), level);
      CloseInTurn(b, q, more, r, level);
    }
  }

  lemma BodyStart(body: Body)
    ensures ShowBody(body) != "" && (ShowBody(body)[0] == '.' || ShowBody(body)[0] == '[' || ShowBody(body)[0] == '(')
    ensures ShowBody(body)[0] == '(' <==> body.Group?
  {
    if body.Group? {
      assert ShowBody(body) == ['('] + (Show(body.items) + ")");
    }
  }

  lemma ItemsStart(items: seq<Item>)
    ensures Show(items) == "" <==> items == []
    ensures items != [] ==> Show(items)[0] == '.' || Show(items)[0] == '[' || Show(items)[0] == '('
  {
    if items != [] {
      BodyStart(items[0].body);
    }
  }

  lemma {:induction false} ReadBody(body: Body, r: string)
    requires LegibleBody(body)
    ensures ParseBody(ShowBody(body) + r) == Ok(body, r)
    decreases body
  {
    BodyStart(body);
    hide ParseAtom, ShowAtom, CloseAt, ParseItems, Show;
    match body {
      case Single(a) =>
        ReadAtom(a, r);
      case Group(items) =>
        hide ParseBody;
        ReadItems(items);
        ReadShownGroup(items, ShowBody(body) + r, r);
    }
  }

  lemma ReadShownGroup(items: seq<Item>, s: string, r: string)
    requires items != [] && ParseItems(Show(items)) == Ok(items, "") && s == "(" + Show(items) + ")" + r
    ensures ParseBody(s) == Ok(Group(items), r)
  {
    hide ParseAtom, CloseAt, ParseItems, Show, ParseBody;
    var inside, n := Show(items), |Show(items)|;
    CloseItems(items, [')'] + r, 0);
    CloseNow(r);
    ItemsStart(items);
    assert s[0] == '(' && s[1..] == inside + ([')'] + r) && s[1..1 + n] == inside && s[n + 2..] == r;
    ReadGroup(s, n, inside, items, r);
  }

  lemma CloseNow(r: string)
    ensures CloseAt([')'] + r, 0, false) == 0
  {
  }

  lemma {:induction false} ReadItems(items: seq<Item>)
    requires Legible(items)
    ensures ParseItems(Show(items)) == Ok(items, "")
    decreases items
  {
    if items == [] {
      ReadNothing();
    } else {
      hide ParseBody, ParseItems, Show, ShowBody, Quantifier, LegibleBody;
      ShowFirst(items);
      ReadBody(items[0].body, Quantifier(items[0]) + Show(items[1..]));
      ReadItems(items[1..]);
      ReadOn(items);
    }
  }

  lemma ReadOn(items: seq<Item>)
    requires items != [] && ParseItems(Show(items[1..])) == Ok(items[1..], "")
    requires var r := Quantifier(items[0]) + Show(items[1..]);
             ParseBody(ShowBody(items[0].body) + r) == Ok(items[0].body, r)
    ensures ParseItems(Show(items)) == Ok(items, "")
  {
    hide ParseBody, ParseItems, Show, ShowBody, Quantifier, IsSkip, IsLoop, AfterQuantifier;
    var item, more := items[0], items[1..];
    BodyStart(item.body);
    ShowFirst(items);
    ReadQuantifier(item, more);
    ReadItem(Show(items), item.body, Quantifier(item) + Show(more), more);
    assert [item] + more == items;
  }

  lemma ReadQuantifier(item: Item, more: seq<Item>)
    ensures var r := Quantifier(item) + Show(more);
            IsSkip(r) == item.skip && IsLoop(r) == item.loop && AfterQuantifier(r) == Show(more)
  {
    hide Show;
    ItemsStart(more);
    var r := Quantifier(item) + Show(more);
    if item.skip || item.loop {
      assert r[1..] == Show(more);
    } else {
      assert r == Show(more);
    }
  }

  // What is read is legible.

  lemma SpecialOrdered(kind: char)
    ensures Ordered(SpecialRange(kind))
  {
  }

  lemma {:induction false} RangesLegible(s: string)
    ensures ParseRanges(s).Ok? ==> Ordered(ParseRanges(s).value)
    decreases |s|
  {
    if s != [] && s[0] != ']' && ParseRange(s).Ok? {
      RangesLegible(ParseRange(s).rest);
    }
  }

  lemma AtomLegible(s: string)
    requires s != []
    ensures ParseAtom(s).Ok? ==> LegibleAtom(ParseAtom(s).value)
  {
    hide ParseRanges, SpecialRange;
    if s[0] == '[' {
      RangesLegible(if |s| > 1 && s[1] == '^' then s[2..] else s[1..]);
    } else if |s| >= 2 {
      SpecialOrdered(s[1]);
    }
  }

  lemma {:induction false} BodyLegible(s: string)
    requires s != []
    ensures ParseBody(s).Ok? ==> LegibleBody(ParseBody(s).value)
    decreases |s|, 0
  {
    hide ParseAtom, CloseAt;
    AtomLegible(s);
    if s[0] == '(' && CloseAt(s[1..], 0, false) > 0 {
      ItemsLegible(s[1..1 + CloseAt(s[1..], 0, false)]);
    }
  }

  lemma {:induction false} ItemsLegible(s: string)
    ensures ParseItems(s).Ok? ==> Legible(ParseItems(s).value) && ParseItems(s).rest == ""
    decreases |s|, 1
  {
    if s != [] && ParseItems(s).Ok? {
      hide ParseBody, LegibleBody;
      BodyLegible(s);
      var body, r := ParseBody(s).value, ParseBody(s).rest;
      var item, more := Item(body, IsSkip(r), IsLoop(r)), ParseItems(AfterQuantifier(r)).value;
      ItemsLegible(AfterQuantifier(r));
      assert ([item] + more)[1..] == more;
    }
  }

  // The whole text.

  /** The text is read as the tree, and neither end of it as an anchor. */
  lemma ShowIsRead(items: seq<Item>)
    requires items != [] && Legible(items)
    ensures ParsePattern(Show(items)) == Ok(items, "")
    ensures !HasStartAnchor(Show(items)) && !HasEndAnchor(Show(items)) && Core(Show(items)) == Show(items)
  {
    hide ParseItems, Show;
    ReadItems(items);
    ItemsStart(items);
    ItemsFinish(items);
  }

  lemma RangesFinish(bounds: seq<Bounds>)
    ensures ShowRanges(bounds) != "" && ShowRanges(bounds)[|ShowRanges(bounds)| - 1] == ']'
  {
  }

  lemma BodyFinish(body: Body)
    ensures ShowBody(body) != "" && ShowBody(body)[|ShowBody(body)| - 1] != '$'
  {
    if body.Single? && body.atom.OneOf? {
      RangesFinish(body.atom.bounds);
    }
  }

  lemma {:induction false} ItemsFinish(items: seq<Item>)
    requires items != []
    ensures Show(items) != "" && Show(items)[|Show(items)| - 1] != '$'
  {
    hide ShowBody;
    BodyFinish(items[0].body);
    if |items| > 1 {
      ItemsFinish(items[1..]);
    } else {
      assert items[1..] == [];
    }
  }

  /** Some text is read as the tree if and only if the tree is legible and not empty. */
  lemma LegibleIff(items: seq<Item>)
    ensures (exists s: string :: ParsePattern(s) == Ok(items, "")) <==> items != [] && Legible(items)
  {
    hide ParseItems, Legible;
    if items != [] && Legible(items) {
      ShowIsRead(items);
    }
    if s: string :| ParsePattern(s) == Ok(items, "") {
      ItemsLegible(s);
    }
  }
}
