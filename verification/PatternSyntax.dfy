/** The text form of patterns: what `parsePat` and `parseNode` of `src/Pattern.cpp` read. */
module PatternSyntax {
  import opened Chars
  import opened PatternLanguage

  datatype ParseError =
    | UnclosedParenthesis
    | UnclosedBracket
    | InvalidRange
    | MisplacedEscape
    | EmptyCapture
    | MisplacedCtrlChar
    | EmptyPattern
    | AssertionFailed // "[]": makeNodeFromBoundList is called with no bounds

  datatype Parsed<+T> = Ok(value: T, rest: string) | Bad(error: ParseError)

  predicate IsInternalChar(c: char) {
    c == '[' || c == ']' || c == '(' || c == ')' || c == '.' || c == '?' ||
    c == '*' || c == '+' || c == '-' || c == '^' || c == '$'
  }

  /** The classes `%s`, `%d`, `%l`, `%p`, `%u`, `%w` and `%x`, in either case; empty for any other letter. */
  function SpecialRange(kind: char): seq<Bounds> {
    var k := ToLower(kind);
    if k == 's' then Singletons(" \t\r\n" + [11 as char, 12 as char])
    else if k == 'd' then [Bounds('0', '9')]
    else if k == 'l' then [Bounds('a', 'z')]
    else if k == 'p' then Singletons(".,;:!?")
    else if k == 'u' then [Bounds('A', 'Z')]
    else if k == 'w' then [Bounds('A', 'Z'), Bounds('a', 'z'), Bounds('0', '9')]
    else if k == 'x' then [Bounds('A', 'F'), Bounds('a', 'f'), Bounds('0', '9')]
    else []
  }

  /** One character of a bracket: escaped, or not a control character. */
  function ParseRangeChar(s: string): (r: Parsed<char>)
    requires s != []
    ensures r.Ok? ==> |r.rest| < |s|
  {
    if s[0] == '%' then (if |s| < 2 then Bad(MisplacedEscape) else Ok(s[1], s[2..]))
    else if IsInternalChar(s[0]) then Bad(MisplacedCtrlChar)
    else Ok(s[0], s[1..])
  }

  /** One character or range of a bracket. */
  function ParseRange(s: string): (r: Parsed<Bounds>)
    requires s != []
    ensures r.Ok? ==> |r.rest| < |s|
  {
    match ParseRangeChar(s)
    case Bad(e) => Bad(e)
    case Ok(c1, r1) =>
      if r1 == [] || r1[0] != '-' then Ok(Bounds(c1, c1), r1)
      else if |r1| < 2 then Bad(MisplacedCtrlChar)
      else match ParseRangeChar(r1[1..])
        case Bad(e) => Bad(e)
        case Ok(c2, r2) => if Signed(c1) > Signed(c2) then Bad(InvalidRange) else Ok(Bounds(c1, c2), r2)
  }

  /** The inside of a bracket, up to and including `]`. */
  function ParseRanges(s: string): (r: Parsed<seq<Bounds>>)
    ensures r.Ok? ==> |r.rest| < |s|
    decreases |s|
  {
    if s == [] then Bad(UnclosedBracket)
    else if s[0] == ']' then Ok([], s[1..])
    else match ParseRange(s)
      case Bad(e) => Bad(e)
      case Ok(b, r) => match ParseRanges(r)
        case Bad(e) => Bad(e)
        case Ok(bs, r') => Ok([b] + bs, r')
  }

  function ParseAtom(s: string): (r: Parsed<Atom>)
    requires s != []
    ensures r.Ok? ==> |r.rest| < |s|
  {
    if s[0] == '.' then Ok(Any, s[1..])
    else if s[0] == '[' then
      var inverted := |s| > 1 && s[1] == '^';
      match ParseRanges(if inverted then s[2..] else s[1..])
      case Bad(e) => Bad(e)
      case Ok(bs, r) => if bs == [] then Bad(AssertionFailed) else Ok(OneOf(bs, inverted), r)
    else if s[0] == '%' && |s| >= 2 then
      var bs := SpecialRange(s[1]);
      Ok(OneOf(if bs == [] then [Bounds(s[1], s[1])] else bs, false), s[2..])
    else if IsInternalChar(s[0]) then Bad(MisplacedCtrlChar)
    else Ok(OneOf([Bounds(s[0], s[0])], false), s[1..])
  }

  /** Where the parenthesis that is open before s closes: -1 if nowhere. */
  function CloseAt(s: string, level: nat, escape: bool): (k: int)
    ensures -1 <= k < |s|
    decreases |s|
  {
    if s == [] then -1
    else if !escape && s[0] == ')' && level == 0 then 0
    else
      var level' :=
        if escape then level else if s[0] == '(' then level + 1 else if s[0] == ')' then level - 1 else level;
      var k := CloseAt(s[1..], level', !escape && s[0] == '%');
      if k < 0 then -1 else k + 1
  }

  function ParseBody(s: string): (r: Parsed<Body>)
    requires s != []
    ensures r.Ok? ==> |r.rest| < |s|
    decreases |s|, 0
  {
    if s[0] == '(' then
      var n := CloseAt(s[1..], 0, false);
      if n < 0 then Bad(UnclosedParenthesis)
      else if n == 0 then Bad(EmptyCapture)
      else match ParsePattern(s[1..1 + n])
        case Bad(e) => Bad(if e == EmptyPattern then EmptyCapture else e)
        case Ok(items, _) => Ok(Group(items), s[n + 2..])
    else match ParseAtom(s)
      case Bad(e) => Bad(e)
      case Ok(a, r) => Ok(Single(a), r)
  }

  predicate IsSkip(s: string) {
    s != [] && (s[0] == '?' || s[0] == '*' || s[0] == '-')
  }

  predicate IsLoop(s: string) {
    s != [] && (s[0] == '*' || s[0] == '-' || s[0] == '+')
  }

  function AfterQuantifier(s: string): (r: string)
    ensures |r| <= |s|
  {
    if IsSkip(s) || IsLoop(s) then s[1..] else s
  }

  function ParseItems(s: string): Parsed<seq<Item>>
    decreases |s|, 1
  {
    if s == [] then Ok([], [])
    else match ParseBody(s)
      case Bad(e) => Bad(e)
      case Ok(body, r) => Prepend([Item(body, IsSkip(r), IsLoop(r))], ParseItems(AfterQuantifier(r)))
  }

  function Prepend(done: seq<Item>, r: Parsed<seq<Item>>): Parsed<seq<Item>> {
    match r
    case Bad(e) => Bad(e)
    case Ok(items, rest) => Ok(done + items, rest)
  }

  function ParsePattern(s: string): Parsed<seq<Item>>
    decreases |s|, 2
  {
    match ParseItems(s)
    case Bad(e) => Bad(e)
    case Ok(items, rest) => if items == [] then Bad(EmptyPattern) else Ok(items, rest)
  }
}
