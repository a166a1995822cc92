/** The values of include/mgpcl/JSON.h, what the parser of src/JSON.cpp reads, and what its two printers write. */
module JsonSyntax {
  import opened BasicParser
  import opened FlatMap

  /** A number is a double: here an integer, or a decimal kept as its text. An object is a sorted list of named
      elements. */
  datatype Json =
    | Null
    | Boolean(b: bool)
    | Number(n: int)
    | Decimal(text: string)
    | String(s: string)
    | Array(items: seq<Json>)
    | Object(members: seq<Pair<Named>>)

  datatype Named = Named(name: string, value: Json)

  /** Aborted: an assertion of the source fails. */
  datatype Outcome<+T> = Ok(value: T, rest: string) | Failed | Aborted

  // Tokens.

  function Unescape(c: char): string {
    if c == '\\' then "\\"
    else if c == 't' then "\t"
    else if c == 'r' then "\r"
    else if c == 'n' then "\n"
    else if c == 'b' then [8 as char]
    else if c == 'f' then [12 as char]
    else if c == '\'' then "\'"
    else if c == '\"' then "\""
    else ['\\', c]
  }

  function Prepend(p: string, r: Outcome<string>): Outcome<string> {
    match r case Ok(v, rest) => Ok(p + v, rest) case Failed => Failed case Aborted => Aborted
  }

  /** The rest of a string that started with the quote `begin`. */
  function ParseString(s: string, begin: char, escaped: bool): (r: Outcome<string>)
    ensures r.Ok? ==> |r.rest| < |s|
    ensures !r.Aborted?
  {
    if s == "" || s[0] == '\n' || s[0] == '\r' then Failed
    else if escaped then Prepend(Unescape(s[0]), ParseString(s[1..], begin, false))
    else if s[0] == '\\' then ParseString(s[1..], begin, true)
    else if s[0] == begin then Ok("", s[1..])
    else Prepend([s[0]], ParseString(s[1..], begin, false))
  }

  predicate IsKeyChar(c: char) {
    'A' <= c <= 'Z' || 'a' <= c <= 'z' || c == '_'
  }

  /** The rest of an unquoted key; some character must follow it. */
  function ParseKey(s: string): (r: Outcome<string>)
    ensures r.Ok? ==> |r.rest| <= |s|
    ensures !r.Aborted?
  {
    if s == "" then Failed
    else if IsKeyChar(s[0]) then Prepend([s[0]], ParseKey(s[1..]))
    else Ok("", s)
  }

  predicate IsDigit(c: char) {
    '0' <= c <= '9'
  }

  /** The rest of a number; some character must follow it, and one dot at most. */
  function ParseNumber(s: string, hasDot: bool): (r: Outcome<string>)
    ensures r.Ok? ==> |r.rest| <= |s|
    ensures !r.Aborted?
  {
    if s == "" then Failed
    else if s[0] == '.' then (if hasDot then Failed else Prepend(".", ParseNumber(s[1..], true)))
    else if IsDigit(s[0]) then Prepend([s[0]], ParseNumber(s[1..], hasDot))
    else Ok("", s)
  }

  function FoldDigits(acc: int, s: string): int
    decreases s
  {
    if s == "" || !IsDigit(s[0]) then acc else FoldDigits(Wrap32(acc * 10 + (s[0] as int - '0' as int)), s[1..])
  }

  /** `TString::toInteger` in base 10 on a number token, in wrapping 32-bit arithmetic. */
  function ToInteger(s: string): (n: int)
    requires s != ""
    ensures -0x8000_0000 <= n < 0x8000_0000
  {
    if s[0] == '-' then Wrap32(-FoldDigits(0, s[1..])) else Wrap32(FoldDigits(0, s))
  }

  function NumberOf(token: string): Json
    requires token != ""
  {
    if '.' in token then Decimal(token) else Number(ToInteger(token))
  }

  // Values.

  function Expect(r: string, word: string, v: Json): Outcome<Json> {
    if word <= r then Ok(v, r[|word|..]) else Failed
  }

  function ParseValue(s: string): (r: Outcome<Json>)
    ensures r.Ok? ==> |r.rest| < |s|
    decreases |s|, 0
  {
    var t := SkipBlanks(s);
    if t == "" then Failed
    else
      var c, r := t[0], t[1..];
      if c == '{' then ParseMembers(r, true, [])
      else if c == '[' then ParseElements(r, true, [])
      else if c == '\'' || c == '\"' then
        match ParseString(r, c, false)
        case Ok(v, rest) => Ok(String(v), rest)
        case _ => Failed
      else if IsDigit(c) || c == '.' || c == '-' then
        match ParseNumber(r, c == '.')
        case Ok(v, rest) => Ok(NumberOf([c] + v), rest)
        case _ => Failed
      else if c == 't' then Expect(r, "rue", Boolean(true))
      else if c == 'f' then Expect(r, "alse", Boolean(false))
      else if c == 'n' then Expect(r, "ull", Null)
      else Failed
  }

  /** What follows an optional comma: a comma is needed except before the first element, and may come before the end. */
  function AfterComma(t: string, first: bool): (r: Outcome<string>)
    requires t != ""
    ensures r.Ok? ==> r.value == r.rest && r.value != "" && |r.value| <= |t|
  {
    if first then Ok(t, t)
    else if t[0] != ',' then Failed
    else
      var u := SkipBlanks(t[1..]);
      if u == "" then Failed else Ok(u, u)
  }

  function ParseElements(s: string, first: bool, acc: seq<Json>): (r: Outcome<Json>)
    ensures r.Ok? ==> |r.rest| < |s|
    decreases |s|, 1
  {
    var t := SkipBlanks(s);
    if t == "" then Failed
    else if t[0] == ']' then Ok(Array(acc), t[1..])
    else
      var a := AfterComma(t, first);
      if !a.Ok? then Failed
      else if !first && a.value[0] == ']' then Ok(Array(acc), a.value[1..])
      else
        match ParseValue(a.value)
        case Ok(v, rest) => ParseElements(rest, false, acc + [v])
        case Failed => Failed
        case Aborted => Aborted
  }

  function ParseName(t: string): (r: Outcome<string>)
    requires t != ""
    ensures r.Ok? ==> |r.rest| < |t|
    ensures !r.Aborted?
  {
    if t[0] == '\'' || t[0] == '\"' then ParseString(t[1..], t[0], false)
    else if IsKeyChar(t[0]) then Prepend([t[0]], ParseKey(t[1..]))
    else Failed
  }

  function ParseMembers(s: string, first: bool, acc: seq<Pair<Named>>): (r: Outcome<Json>)
    ensures r.Ok? ==> |r.rest| < |s|
    decreases |s|, 1
  {
    var t := SkipBlanks(s);
    if t == "" then Failed
    else if t[0] == '}' then Ok(Object(acc), t[1..])
    else
      var a := AfterComma(t, first);
      if !a.Ok? then Failed
      else if !first && a.value[0] == '}' then Ok(Object(acc), a.value[1..])
      else
        match ParseMember(a.value)
        case Ok(e, rest) => ParseMembers(rest, false, Inserted(acc, Const(e.name), e))
        case Failed => Failed
        case Aborted => Aborted
  }

  /** A name, a colon and a value. */
  function ParseMember(t: string): (r: Outcome<Named>)
    requires t != ""
    ensures r.Ok? ==> |r.rest| < |t| && r.value.name != ""
    decreases |t|, 0
  {
    match ParseName(t)
    case Ok(key, r1) => (
      var u := SkipBlanks(r1);
      if u == "" || u[0] != ':' then Failed
      else match ParseValue(u[1..])
        // "can't add unnamed element to object"
        case Ok(v, rest) => if key == "" then Aborted else Ok(Named(key, v), rest)
        case Failed => Failed
        case Aborted => Aborted)
    case _ => Failed
  }

  // Printing. The compact form is the human-readable one without blanks.

  function Blanks(n: nat): string {
    if n == 0 then "" else " " + Blanks(n - 1)
  }

  /** Four spaces a level. */
  function Indent(human: bool, tabs: nat): string {
    if human then Blanks(4 * tabs) else ""
  }

  function Colon(human: bool): string {
    if human then ": " else ":"
  }

  function NewLine(human: bool): string {
    if human then "\n" else ""
  }

  function Escape(c: char): string {
    if c == '\\' then "\\\\"
    else if c == '\t' then "\\t"
    else if c == '\r' then "\\r"
    else if c == '\n' then "\\n"
    else if c == 8 as char then "\\b"
    else if c == 12 as char then "\\f"
    else if c == '\"' then "\\\""
    else [c]
  }

  function EscapeAll(s: string): string {
    if s == "" then "" else Escape(s[0]) + EscapeAll(s[1..])
  }

  function Quote(s: string): string {
    "\"" + EscapeAll(s) + "\""
  }

  function DigitChar(d: nat): char
    requires d < 10
  {
    ('0' as int + d) as char
  }

  function Digits(n: nat): (s: string)
    ensures s != ""
  {
    if n < 10 then [DigitChar(n)] else Digits(n / 10) + [DigitChar(n % 10)]
  }

  /** `TString::fromInteger64`: the magnitude goes through a 32-bit unsigned integer. */
  function FromInteger64(n: int): string {
    if n < 0 then "-" + Digits(-n % 0x1_0000_0000) else Digits(n % 0x1_0000_0000)
  }

  function Print(human: bool, v: Json, tabs: nat): string
    decreases v, 0
  {
    match v
    case Null => "null"
    case Boolean(b) => if b then "true" else "false"
    case Number(n) => FromInteger64(n)
    case Decimal(text) => text
    case String(s) => Quote(s)
    case Array(items) =>
      if items == [] then "[]"
      else "[" + NewLine(human) + PrintItem(human, items[0], tabs + 1) + PrintItems(human, items[1..], tabs + 1)
           + NewLine(human) + Indent(human, tabs) + "]"
    case Object(members) =>
      if members == [] then "{}"
      else "{" + NewLine(human) + PrintMember(human, members[0], tabs + 1) + PrintMembers(human, members[1..], tabs + 1)
           + NewLine(human) + Indent(human, tabs) + "}"
  }

  function PrintItem(human: bool, v: Json, tabs: nat): string
    decreases v, 1
  {
    Indent(human, tabs) + Print(human, v, tabs)
  }

  /** The items after the first, each after a comma. */
  function PrintItems(human: bool, items: seq<Json>, tabs: nat): string
    decreases items, 0
  {
    if items == [] then ""
    else "," + NewLine(human) + PrintItem(human, items[0], tabs) + PrintItems(human, items[1..], tabs)
  }

  function PrintMember(human: bool, e: Pair<Named>, tabs: nat): string
    decreases e
  {
    Indent(human, tabs) + Quote(e.value.name) + Colon(human) + Print(human, e.value.value, tabs)
  }

  function PrintMembers(human: bool, members: seq<Pair<Named>>, tabs: nat): string
    decreases members, 0
  {
    if members == [] then ""
    else "," + NewLine(human) + PrintMember(human, members[0], tabs) + PrintMembers(human, members[1..], tabs)
  }

  // Which values come back.

  /** Elements added one after the other. */
  function PutAll(acc: seq<Pair<Named>>, members: seq<Pair<Named>>): seq<Pair<Named>>
    decreases members
  {
    if members == [] then acc
    else PutAll(Inserted(acc, Const(members[0].value.name), members[0].value), members[1..])
  }

  predicate MembersReadable(members: seq<Pair<Named>>)
    decreases members
  {
    forall i :: 0 <= i < |members| ==> members[i].value.name != "" && WellFormed(members[i].value.value)
  }

  /** A tree of null, booleans, 32-bit integers, byte strings, arrays, and objects whose members have non-empty
      names and are in order of distinct hashes, as `FlatMap` keeps them. */
  predicate WellFormed(v: Json)
    decreases v
  {
    match v
    case Number(n) => -0x8000_0000 <= n < 0x8000_0000
    case Decimal(_) => false
    case Array(items) => forall i :: 0 <= i < |items| ==> WellFormed(items[i])
    case Object(members) =>
      && (forall i, j :: 0 <= i < j < |members| ==> members[i].key.hash < members[j].key.hash)
      && (forall i :: 0 <= i < |members| ==>
            members[i].value.name != "" && members[i].key == Const(members[i].value.name) &&
                WellFormed(members[i].value.value))
    case _ => true
  }
}
