/** The texts that the parser of src/JSON.cpp accepts, character by character: with any blanks, quotes of both kinds,
    unquoted names and a comma before the end. */
module JsonGrammar {
  import opened BasicParser
  import opened FlatMap
  import opened JsonSyntax
  import opened JsonRoundTrip

  // Texts as trees.

  datatype Text =
    | Word(word: string)
    | Num(token: string)
    | Str(quoted: Quoted)
    | List(slots: seq<Slot>, close: Close)
    | Dict(entries: seq<Entry>, close: Close)

  /** A quote, what stands inside, and the same quote. */
  datatype Quoted = Quoted(quote: char, inside: string)

  datatype Name = InQuotes(quoted: Quoted) | Bare(key: string)

  /** An element: blanks, a comma unless it is the first, blanks, and the value. */
  datatype Slot = Slot(before: string, lead: string, text: Text)

  datatype Entry = Entry(before: string, lead: string, name: Name, colonBefore: string, colonAfter: string, text: Text)

  /** Before a closing bracket: blanks, and perhaps a comma and blanks. */
  datatype Close = Close(before: string, comma: bool, after: string)

  function WrittenQuoted(q: Quoted): string {
    [q.quote] + (q.inside + [q.quote])
  }

  function WrittenName(n: Name): string {
    match n case InQuotes(q) => WrittenQuoted(q) case Bare(key) => key
  }

  function WrittenClose(c: Close): string {
    c.before + if c.comma then "," + c.after else ""
  }

  function Comma(before: string, first: bool): string {
    if first then before else before + ","
  }

  function Written(t: Text): string
    decreases t, 0
  {
    match t
    case Word(word) => word
    case Num(token) => token
    case Str(q) => WrittenQuoted(q)
    case List(slots, c) => "[" + (WrittenSlots(slots, true) + (WrittenClose(c) + "]"))
    case Dict(entries, c) => "{" + (WrittenEntries(entries, true) + (WrittenClose(c) + "}"))
  }

  function WrittenSlots(slots: seq<Slot>, first: bool): string
    decreases slots, 1
  {
    if slots == [] then ""
    else
      assert slots[0].text < slots[0];
      Comma(slots[0].before, first) + (slots[0].lead + (Written(slots[0].text) + WrittenSlots(slots[1..], false)))
  }

  function WrittenEntries(entries: seq<Entry>, first: bool): string
    decreases entries, 1
  {
    if entries == [] then "" else EntryThen(entries[0], first, WrittenEntries(entries[1..], false))
  }

  /** A member, and what comes after it. */
  function EntryThen(e: Entry, first: bool, more: string): string
    decreases e, 1
  {
    Comma(e.before, first) + (e.lead + NamedThen(e, more))
  }

  function NamedThen(e: Entry, more: string): string
    decreases e, 0
  {
    WrittenName(e.name) + (e.colonBefore + (":" + (e.colonAfter + (Written(e.text) + more))))
  }

  // Which trees are legal, and what they mean.

  predicate Blank(b: string) {
    forall i :: 0 <= i < |b| ==> b[i] == ' ' || b[i] == '\t' || b[i] == '\r' || b[i] == '\n'
  }

  predicate Digit(c: char) {
    '0' <= c <= '9'
  }

  predicate KeyLetter(c: char) {
    'A' <= c <= 'Z' || 'a' <= c <= 'z' || c == '_'
  }

  /** No bare quote, no line break, and something to escape after every backslash. */
  predicate Inside(s: string, quote: char) {
    s == "" ||
    if s[0] == '\\' then |s| >= 2 && s[1] != '\n' && s[1] != '\r' && Inside(s[2..], quote)
    else s[0] != quote && s[0] != '\n' && s[0] != '\r' && Inside(s[1..], quote)
  }

  function Meant(s: string): string {
    if s == "" then ""
    else if s[0] == '\\' && |s| >= 2 then Unescape(s[1]) + Meant(s[2..])
    else [s[0]] + Meant(s[1..])
  }

  /** Digits, and at most one dot. */
  predicate NumberTail(d: string, hasDot: bool) {
    d == "" || (Digit(d[0]) && NumberTail(d[1..], hasDot)) || (d[0] == '.' && !hasDot && NumberTail(d[1..], true))
  }

  predicate NumberToken(token: string) {
    token != "" && (Digit(token[0]) || token[0] == '-' || token[0] == '.') && NumberTail(token[1..], token[0] == '.')
  }

  predicate LegalQuoted(q: Quoted) {
    (q.quote == '\"' || q.quote == '\'') && Inside(q.inside, q.quote)
  }

  predicate LegalKey(key: string) {
    key != "" && forall i :: 0 <= i < |key| ==> KeyLetter(key[i])
  }

  predicate LegalName(n: Name) {
    match n case InQuotes(q) => LegalQuoted(q) && Meant(q.inside) != "" case Bare(key) => LegalKey(key)
  }

  function NameMeant(n: Name): string {
    match n case InQuotes(q) => Meant(q.inside) case Bare(key) => key
  }

  predicate LegalClose(c: Close, empty: bool) {
    Blank(c.before) && Blank(c.after) && (c.comma ==> !empty)
  }

  predicate Legal(t: Text)
    decreases t, 0
  {
    match t
    case Word(word) => word == "null" || word == "true" || word == "false"
    case Num(token) => NumberToken(token)
    case Str(q) => LegalQuoted(q)
    case List(slots, c) => LegalSlots(slots) && LegalClose(c, slots == [])
    case Dict(entries, c) => LegalEntries(entries) && LegalClose(c, entries == [])
  }

  predicate LegalSlot(slot: Slot)
    decreases slot
  {
    Blank(slot.before) && Blank(slot.lead) && Legal(slot.text)
  }

  predicate LegalSlots(slots: seq<Slot>)
    decreases slots, 1
  {
    slots == [] || (LegalSlot(slots[0]) && LegalSlots(slots[1..]))
  }

  predicate LegalEntry(e: Entry)
    decreases e
  {
    && Blank(e.before) && Blank(e.lead) && LegalName(e.name)
    && Blank(e.colonBefore) && Blank(e.colonAfter) && Legal(e.text)
  }

  predicate LegalEntries(entries: seq<Entry>)
    decreases entries, 1
  {
    entries == [] || (LegalEntry(entries[0]) && LegalEntries(entries[1..]))
  }

  function Meaning(t: Text): Json
    decreases t, 0
  {
    match t
    case Word(word) => if word == "null" then Null else Boolean(word == "true")
    case Num(token) => if token == "" then Null else NumberOf(token)
    case Str(q) => String(Meant(q.inside))
    case List(slots, c) => Array(Meanings(slots))
    case Dict(entries, c) => Object(PutEntries([], entries))
  }

  function Meanings(slots: seq<Slot>): seq<Json>
    decreases slots, 1
  {
    if slots == [] then [] else assert slots[0].text < slots[0]; [Meaning(slots[0].text)] + Meanings(slots[1..])
  }

  /** The members put one after the other. */
  function PutEntries(acc: seq<Pair<Named>>, entries: seq<Entry>): seq<Pair<Named>>
    decreases entries, 1
  {
    if entries == [] then acc
    else
      var e := entries[0];
      assert e.text < e;
      PutEntries(Inserted(acc, Const(NameMeant(e.name)), Named(NameMeant(e.name), Meaning(e.text))), entries[1..])
  }

  /** A number must be seen to end. */
  predicate SeenToEnd(t: Text, rest: string) {
    t.Num? ==> rest != "" && !Digit(rest[0]) && rest[0] != '.'
  }

  // Characters.

  lemma BlankIs(b: string)
    ensures Blank(b) <==> AllBlank(b)
  {
  }

  /** A blank is skipped wherever a token is expected, and nothing else is. */
  lemma BlankIsSkipped(c: char, s: string, first: bool, acc: seq<Json>, members: seq<Pair<Named>>)
    ensures c == ' ' || c == '\t' || c == '\r' || c == '\n' ==>
              && SkipBlanks([c] + s) == SkipBlanks(s) && ParseValue([c] + s) == ParseValue(s)
              && ParseElements([c] + s, first, acc) == ParseElements(s, first, acc)
              && ParseMembers([c] + s, first, members) == ParseMembers(s, first, members)
    ensures c != ' ' && c != '\t' && c != '\r' && c != '\n' ==> SkipBlanks([c] + s) == [c] + s
  {
    FirstSkipped(c, s);
    if c == ' ' || c == '\t' || c == '\r' || c == '\n' {
      BlanksBefore([c], s);
    }
  }

  /** What the characters after a backslash stand for. */
  lemma Escapes(c: char)
    ensures Unescape('t') == [9 as char] && Unescape('n') == [10 as char] && Unescape('r') == [13 as char]
    ensures Unescape('b') == [8 as char] && Unescape('f') == [12 as char]
    ensures Unescape('\\') == ['\\'] && Unescape('\"') == ['\"'] && Unescape('\'') == ['\'']
    ensures c !in "tnrbf\\\"\'" ==> Unescape(c) == ['\\', c]
  {
  }

  /** Which characters can stand in an unquoted name, in a number, in a string, and at the start of a value. */
  lemma CharactersRead(c: char, s: string, hasDot: bool)
    ensures ParseKey([c] + s) == if 'A' <= c <= 'Z' || 'a' <= c <= 'z' || c == '_' then Prepend([c], ParseKey(s))
                                 else Ok("", [c] + s)
    ensures '0' <= c <= '9' ==> ParseNumber([c] + s, hasDot) == Prepend([c], ParseNumber(s, hasDot))
    ensures c == '.' ==> ParseNumber([c] + s, hasDot) == if hasDot then Failed else Prepend(".", ParseNumber(s, true))
    ensures !('0' <= c <= '9') && c != '.' ==> ParseNumber([c] + s, hasDot) == Ok("", [c] + s)
    ensures !('0' <= c <= '9') && c !in "{[\'\"-.tfn \t\r\n" ==> ParseValue([c] + s) == Failed
  {
    hide ParseElements, ParseMembers, ParseString, NumberOf;
    assert ([c] + s)[1..] == s;
  }

  /** A number with a dot is kept as it is written, one without is read as an integer. */
  lemma NumberKinds(token: string)
    requires token != ""
    ensures '.' in token ==> NumberOf(token) == Decimal(token)
    ensures '.' !in token ==> NumberOf(token) == Number(ToInteger(token))
    ensures ToInteger("-" + token) == Wrap32(-FoldDigits(0, token))
  {
    hide FoldDigits;
    assert ("-" + token)[1..] == token;
  }

  lemma CharactersOfString(c: char, s: string, quote: char)
    requires quote == '\"' || quote == '\''
    ensures c == '\n' || c == '\r' ==> ParseString([c] + s, quote, false) == Failed
    ensures c == quote ==> ParseString([c] + s, quote, false) == Ok("", s)
    ensures c != quote && c !in "\n\r\\" ==>
              ParseString([c] + s, quote, false) == Prepend([c], ParseString(s, quote, false))
  {
    assert ([c] + s)[1..] == s;
  }

  lemma {:induction false} InsideIsRead(s: string, quote: char, rest: string)
    requires (quote == '\"' || quote == '\'') && Inside(s, quote)
    ensures ParseString(s + ([quote] + rest), quote, false) == Ok(Meant(s), rest)
    decreases |s|
  {
    hide ParseString, Meant, Inside, Unescape;
    InsideParts(s, quote);
    var t := s + ([quote] + rest);
    if s == "" {
      QuoteRead(quote, rest);
      assert t == [quote] + rest;
    } else if s[0] == '\\' {
      InsideIsRead(s[2..], quote, rest);
      EscapeRead(s[1], s[2..] + ([quote] + rest), quote);
      EscapeInFront(s[1], s[2..], quote);
      assert ['\\', s[1]] + s[2..] == s && ['\\', s[1]] + (s[2..] + ([quote] + rest)) == t;
    } else {
      InsideIsRead(s[1..], quote, rest);
      CharacterRead(s[0], s[1..] + ([quote] + rest), quote);
      CharacterInFront(s[0], s[1..], quote);
      assert [s[0]] + s[1..] == s && [s[0]] + (s[1..] + ([quote] + rest)) == t;
    }
  }

  lemma InsideParts(s: string, quote: char)
    requires Inside(s, quote)
    ensures s != "" && s[0] == '\\' ==> |s| >= 2 && s[1] != '\n' && s[1] != '\r' && Inside(s[2..], quote)
    ensures s != "" && s[0] != '\\' ==> s[0] != quote && s[0] != '\n' && s[0] != '\r' && Inside(s[1..], quote)
  {
  }

  lemma QuoteRead(quote: char, rest: string)
    requires quote == '\"' || quote == '\''
    ensures ParseString([quote] + rest, quote, false) == Ok("", rest) && Meant("") == ""
  {
    assert ([quote] + rest)[1..] == rest;
  }

  lemma EscapeRead(c: char, t: string, quote: char)
    requires c != '\n' && c != '\r' && quote != '\\'
    ensures ParseString(['\\', c] + t, quote, false) == Prepend(Unescape(c), ParseString(t, quote, false))
  {
    hide Unescape, Prepend;
    var s := ['\\', c] + t;
    assert s[1..] == [c] + t && s[1..][1..] == t;
    assert ParseString(s, quote, false) == ParseString(s[1..], quote, true);
  }

  lemma CharacterRead(c: char, t: string, quote: char)
    requires c != '\n' && c != '\r' && c != '\\' && c != quote
    ensures ParseString([c] + t, quote, false) == Prepend([c], ParseString(t, quote, false))
  {
    hide Prepend;
    assert ([c] + t)[1..] == t;
  }

  lemma EscapeInFront(c: char, s: string, quote: char)
    ensures Inside(['\\', c] + s, quote) <==> c != '\n' && c != '\r' && Inside(s, quote)
    ensures Meant(['\\', c] + s) == Unescape(c) + Meant(s)
  {
    hide Unescape;
    assert (['\\', c] + s)[2..] == s;
  }

  lemma CharacterInFront(c: char, s: string, quote: char)
    requires c != '\\'
    ensures Inside([c] + s, quote) <==> c != quote && c != '\n' && c != '\r' && Inside(s, quote)
    ensures Meant([c] + s) == [c] + Meant(s)
  {
    assert ([c] + s)[1..] == s;
  }

  lemma {:induction false} InsideOf(s: string, quote: char) returns (inside: string)
    requires (quote == '\"' || quote == '\'') && ParseString(s, quote, false).Ok?
    ensures Inside(inside, quote) && Meant(inside) == ParseString(s, quote, false).value
    ensures s == inside + ([quote] + ParseString(s, quote, false).rest)
    decreases |s|
  {
    hide Unescape, Inside, Meant;
    if s[0] == '\\' {
      assert s[1..][1..] == s[2..];
      inside := InsideOf(s[2..], quote);
      EscapeInFront(s[1], inside, quote);
      inside := ['\\', s[1]] + inside;
    } else if s[0] == quote {
      NothingInside(quote);
      inside := "";
    } else {
      inside := InsideOf(s[1..], quote);
      CharacterInFront(s[0], inside, quote);
      inside := [s[0]] + inside;
    }
  }

  lemma NothingInside(quote: char)
    ensures Inside("", quote) && Meant("") == ""
  {
  }

  lemma {:induction false} NumberIff(s: string, hasDot: bool, d: string, rest: string)
    ensures ParseNumber(s, hasDot) == Ok(d, rest) <==>
            s == d + rest && NumberTail(d, hasDot) && rest != "" && !Digit(rest[0]) && rest[0] != '.'
    decreases |s|
  {
    if s != "" && (s[0] == '.' || IsDigit(s[0])) {
      if d != "" && d[0] == s[0] {
        NumberIff(s[1..], hasDot || s[0] == '.', d[1..], rest);
        assert d == [s[0]] + d[1..];
        assert s == d + rest <==> s[1..] == d[1..] + rest;
      } else {
        assert s == d + rest ==> d == "" && rest == s;
        NumberStarts(s, hasDot);
      }
    }
  }

  lemma NumberStarts(s: string, hasDot: bool)
    requires s != "" && (s[0] == '.' || IsDigit(s[0]))
    ensures ParseNumber(s, hasDot).Ok? ==> ParseNumber(s, hasDot).value != "" && ParseNumber(s, hasDot).value[0] == s[0]
  {
  }

  lemma {:induction false} KeyIff(s: string, d: string, rest: string)
    ensures ParseKey(s) == Ok(d, rest) <==>
            s == d + rest && (forall i :: 0 <= i < |d| ==> KeyLetter(d[i])) && rest != "" && !KeyLetter(rest[0])
    decreases |s|
  {
    if s != "" && IsKeyChar(s[0]) {
      if d != "" && d[0] == s[0] {
        KeyIff(s[1..], d[1..], rest);
        assert d == [s[0]] + d[1..];
        assert s == d + rest <==> s[1..] == d[1..] + rest;
        assert forall i :: 1 <= i < |d| ==> d[i] == d[1..][i - 1];
      } else {
        assert s == d + rest ==> d == "" && rest == s;
        KeyStarts(s);
      }
    }
  }

  lemma KeyStarts(s: string)
    requires s != "" && IsKeyChar(s[0])
    ensures ParseKey(s).Ok? ==> ParseKey(s).value != "" && ParseKey(s).value[0] == s[0]
  {
  }

  // Every legal text is read as what it means.

  /** t comes after an element: it begins with a blank, a comma or a closing bracket. */
  predicate Behind(t: string) {
    t != "" && (IsBlank(t[0]) || t[0] == ',' || t[0] == ']' || t[0] == '}')
  }

  lemma BlanksFirst(b: string, t: string)
    requires Blank(b) && Behind(t)
    ensures Behind(b + t)
  {
  }

  lemma SlotsFollow(slots: seq<Slot>, t: string)
    requires LegalSlots(slots) && Behind(t)
    ensures Behind(WrittenSlots(slots, false) + t)
  {
    if slots == [] {
      assert WrittenSlots(slots, false) + t == t;
    } else {
      assert Comma(slots[0].before, false) == slots[0].before + ",";
    }
  }

  lemma EntriesFollow(entries: seq<Entry>, t: string)
    requires LegalEntries(entries) && Behind(t)
    ensures Behind(WrittenEntries(entries, false) + t)
  {
    if entries == [] {
      assert WrittenEntries(entries, false) + t == t;
    } else {
      assert Comma(entries[0].before, false) == entries[0].before + ",";
    }
  }

  lemma CloseFollows(c: Close, empty: bool, bracket: string)
    requires LegalClose(c, empty) && bracket != "" && (bracket[0] == ']' || bracket[0] == '}')
    ensures Behind(WrittenClose(c) + bracket)
  {
  }

  lemma FollowsEnds(t: Text, rest: string)
    requires Behind(rest)
    ensures SeenToEnd(t, rest)
  {
  }

  lemma NumIsRead(token: string, rest: string)
    requires NumberToken(token) && SeenToEnd(Num(token), rest)
    ensures ParseValue(token + rest) == Ok(NumberOf(token), rest)
  {
    hide ParseNumber, NumberOf, NumberTail, ParseValue;
    var c, d := token[0], token[1..];
    NumberIff(d + rest, c == '.', d, rest);
    NumberValue(c, d, rest);
    TokenSplit(token, rest);
  }

  lemma TokenSplit(token: string, rest: string)
    requires token != ""
    ensures [token[0]] + token[1..] == token && [token[0]] + (token[1..] + rest) == token + rest
  {
  }

  lemma NumberValue(c: char, d: string, rest: string)
    requires (Digit(c) || c == '-' || c == '.') && ParseNumber(d + rest, c == '.') == Ok(d, rest)
    ensures ParseValue([c] + (d + rest)) == Ok(NumberOf([c] + d), rest)
  {
    hide ParseNumber, NumberOf, ParseString, ParseElements, ParseMembers;
    var s := [c] + (d + rest);
    assert s[0] == c && s[1..] == d + rest;
    SkipNothing(s);
  }

  lemma QuotedIsRead(q: Quoted, rest: string)
    requires LegalQuoted(q)
    ensures ParseValue(WrittenQuoted(q) + rest) == Ok(String(Meant(q.inside)), rest)
    ensures ParseName(WrittenQuoted(q) + rest) == Ok(Meant(q.inside), rest)
  {
    hide ParseString, Inside, Meant, ParseElements, ParseMembers, ParseNumber;
    var s := WrittenQuoted(q) + rest;
    InsideIsRead(q.inside, q.quote, rest);
    assert s[0] == q.quote && s[1..] == q.inside + ([q.quote] + rest);
    SkipNothing(s);
  }

  lemma NameIsRead(n: Name, rest: string)
    requires LegalName(n) && rest != "" && !KeyLetter(rest[0])
    ensures ParseName(WrittenName(n) + rest) == Ok(NameMeant(n), rest)
  {
    match n {
      case InQuotes(q) =>
        hide ParseName;
        QuotedIsRead(q, rest);
      case Bare(key) =>
        var s := key + rest;
        KeyIff(s[1..], key[1..], rest);
        hide ParseKey;
        assert s[1..] == key[1..] + rest && [key[0]] + key[1..] == key;
    }
  }

  /** Every value starts with a character that is neither blank nor a comma nor a closing bracket, and so does every
      name. */
  lemma ValueStarts(t: Text, rest: string)
    requires Legal(t)
    ensures StartsValue(Written(t) + rest)
  {
  }

  lemma NameStarts(n: Name, rest: string)
    requires LegalName(n)
    ensures StartsValue(WrittenName(n) + rest)
  {
  }

  lemma ListCloses(c: Close, first: bool, acc: seq<Json>, rest: string)
    requires LegalClose(c, first)
    ensures ParseElements(WrittenClose(c) + ("]" + rest), first, acc) == Ok(Array(acc), rest)
  {
    BlankIs(c.before);
    BlankIs(c.after);
    if c.comma {
      var u := c.after + ("]" + rest);
      assert WrittenClose(c) + ("]" + rest) == c.before + ("," + u);
      BlanksBefore(c.before, "," + u);
      SkipNothing("," + u);
      assert ("," + u)[1..] == u;
      BlanksSkipped(c.after, "]" + rest);
      SkipNothing("]" + rest);
      assert ("]" + rest)[1..] == rest;
    } else {
      assert WrittenClose(c) == c.before;
      CloseBracket(c.before, rest, first, acc, []);
    }
  }

  lemma DictCloses(c: Close, first: bool, acc: seq<Pair<Named>>, rest: string)
    requires LegalClose(c, first)
    ensures ParseMembers(WrittenClose(c) + ("}" + rest), first, acc) == Ok(Object(acc), rest)
  {
    BlankIs(c.before);
    BlankIs(c.after);
    if c.comma {
      var u := c.after + ("}" + rest);
      assert WrittenClose(c) + ("}" + rest) == c.before + ("," + u);
      BlanksBefore(c.before, "," + u);
      SkipNothing("," + u);
      assert ("," + u)[1..] == u;
      BlanksSkipped(c.after, "}" + rest);
      SkipNothing("}" + rest);
      assert ("}" + rest)[1..] == rest;
    } else {
      assert WrittenClose(c) == c.before;
      CloseBracket(c.before, rest, first, [], acc);
    }
  }

  lemma ElementIsRead(before: string, lead: string, first: bool, t: string, v: Json, more: string, acc: seq<Json>)
    requires Blank(before) && Blank(lead) && StartsValue(t) && ParseValue(t) == Ok(v, more) && (first ==> acc == [])
    ensures ParseElements(Comma(before, first) + (lead + t), first, acc) == ParseElements(more, false, acc + [v])
  {
    hide ParseValue, ParseElements, StartsValue;
    BlankIs(before);
    BlankIs(lead);
    if first {
      BlanksBefore(before, lead + t);
      FirstElement(lead, t, v, more);
      assert acc + [v] == [v];
    } else {
      assert Comma(before, first) + (lead + t) == before + ("," + (lead + t));
      BlanksBefore(before, "," + (lead + t));
      NextElement(lead, t, v, more, acc);
    }
  }

  lemma EntryIsPut(before: string, lead: string, first: bool, t: string, e: Named, more: string, acc: seq<Pair<Named>>)
    requires Blank(before) && Blank(lead) && StartsValue(t) && ParseMember(t) == Ok(e, more) && (first ==> acc == [])
    ensures ParseMembers(Comma(before, first) + (lead + t), first, acc)
         == ParseMembers(more, false, Inserted(acc, Const(e.name), e))
  {
    hide ParseMember, Inserted;
    BlankIs(before);
    BlankIs(lead);
    BlanksSkipped(lead, t);
    SkipNothing(t);
    if first {
      BlanksBefore(before, lead + t);
    } else {
      var u := "," + (lead + t);
      assert Comma(before, first) + (lead + t) == before + u;
      BlanksBefore(before, u);
      SkipNothing(u);
      assert u[1..] == lead + t;
    }
  }

  /** Name, colon and value, with blanks around the colon. */
  lemma MemberIsRead(e: Entry, more: string)
    requires LegalEntry(e) && ParseValue(Written(e.text) + more) == Ok(Meaning(e.text), more)
    ensures ParseMember(NamedThen(e, more)) == Ok(Named(NameMeant(e.name), Meaning(e.text)), more)
    ensures StartsValue(NamedThen(e, more))
    ensures NameMeant(e.name) != ""
  {
    hide ParseValue, Written, WrittenName, Meaning, Legal;
    var value := Written(e.text) + more;
    var colon := ":" + (e.colonAfter + value);
    BlankIs(e.colonBefore);
    BlankIs(e.colonAfter);
    NameIsRead(e.name, e.colonBefore + colon);
    NameStarts(e.name, e.colonBefore + colon);
    BlanksSkipped(e.colonBefore, colon);
    SkipNothing(colon);
    assert colon[1..] == e.colonAfter + value;
    BlanksBefore(e.colonAfter, value);
  }

  lemma ListIsRead(slots: seq<Slot>, c: Close, rest: string)
    requires LegalClose(c, slots == [])
    requires var tail := WrittenClose(c) + ("]" + rest);
             ParseElements(WrittenSlots(slots, true) + tail, true, [])
             == ParseElements(tail, slots == [], [] + Meanings(slots))
    ensures ParseValue(Written(List(slots, c)) + rest) == Ok(Array(Meanings(slots)), rest)
  {
    hide ParseValue, ParseElements, WrittenClose, WrittenSlots, Meanings;
    var inner, tail := WrittenSlots(slots, true), WrittenClose(c) + ("]" + rest);
    ListCloses(c, slots == [], Meanings(slots), rest);
    OpenBracket(inner + tail);
    assert [] + Meanings(slots) == Meanings(slots);
    assert Written(List(slots, c)) + rest == "[" + (inner + tail);
  }

  lemma DictIsRead(entries: seq<Entry>, c: Close, rest: string)
    requires LegalClose(c, entries == [])
    requires var tail := WrittenClose(c) + ("}" + rest);
             ParseMembers(WrittenEntries(entries, true) + tail, true, [])
             == ParseMembers(tail, entries == [], PutEntries([], entries))
    ensures ParseValue(Written(Dict(entries, c)) + rest) == Ok(Object(PutEntries([], entries)), rest)
  {
    hide ParseValue, ParseMembers, WrittenClose, WrittenEntries, PutEntries;
    var inner, tail := WrittenEntries(entries, true), WrittenClose(c) + ("}" + rest);
    DictCloses(c, entries == [], PutEntries([], entries), rest);
    OpenBracket(inner + tail);
    assert Written(Dict(entries, c)) + rest == "{" + (inner + tail);
  }

  lemma {:induction false} ValueIsRead(t: Text, rest: string)
    requires Legal(t) && SeenToEnd(t, rest)
    ensures ParseValue(Written(t) + rest) == Ok(Meaning(t), rest)
    decreases t, 0
  {
    hide ParseValue, ParseElements, ParseMembers, WrittenClose, Behind, NumberOf, PutEntries, Meanings, NumberToken;
    match t {
      case Word(word) => WordRoundTrip(word, Meaning(t), rest);
      case Num(token) => NumIsRead(token, rest);
      case Str(q) => QuotedIsRead(q, rest);
      case List(slots, c) =>
        CloseFollows(c, slots == [], "]" + rest);
        SlotsAreRead(slots, true, [], WrittenClose(c) + ("]" + rest));
        ListIsRead(slots, c, rest);
      case Dict(entries, c) =>
        CloseFollows(c, entries == [], "}" + rest);
        EntriesAreRead(entries, true, [], WrittenClose(c) + ("}" + rest));
        DictIsRead(entries, c, rest);
    }
  }

  lemma {:induction false} SlotIsRead(slot: Slot, more: string)
    requires LegalSlot(slot) && Behind(more)
    ensures ParseValue(Written(slot.text) + more) == Ok(Meaning(slot.text), more)
    decreases slot
  {
    FollowsEnds(slot.text, more);
    ValueIsRead(slot.text, more);
  }

  lemma {:induction false} EntryIsRead(e: Entry, more: string)
    requires LegalEntry(e) && Behind(more)
    ensures ParseValue(Written(e.text) + more) == Ok(Meaning(e.text), more)
    decreases e
  {
    FollowsEnds(e.text, more);
    ValueIsRead(e.text, more);
  }

  lemma {:induction false} SlotsAreRead(slots: seq<Slot>, first: bool, acc: seq<Json>, tail: string)
    requires LegalSlots(slots) && Behind(tail) && (first ==> acc == [])
    ensures ParseElements(WrittenSlots(slots, first) + tail, first, acc)
         == ParseElements(tail, first && slots == [], acc + Meanings(slots))
    decreases slots, 1
  {
    if slots == [] {
      hide ParseElements;
      assert WrittenSlots(slots, first) + tail == tail && acc + Meanings(slots) == acc;
    } else {
      hide ParseElements, ParseValue, Written, WrittenSlots, Meaning, Meanings, Behind, Legal, Comma, StartsValue;
      hide Blank;
      var slot, more := slots[0], WrittenSlots(slots[1..], false) + tail;
      SlotsFollow(slots[1..], tail);
      SlotIsRead(slot, more);
      ValueStarts(slot.text, more);
      ElementIsRead(slot.before, slot.lead, first, Written(slot.text) + more, Meaning(slot.text), more, acc);
      SlotsAreRead(slots[1..], false, acc + [Meaning(slot.text)], tail);
      FirstSlot(slots, first, tail);
      FirstMeaning(slots, acc);
    }
  }

  lemma FirstMeaning(slots: seq<Slot>, acc: seq<Json>)
    requires slots != []
    ensures acc + [Meaning(slots[0].text)] + Meanings(slots[1..]) == acc + Meanings(slots)
  {
    hide Meaning;
  }

  lemma FirstSlot(slots: seq<Slot>, first: bool, tail: string)
    requires slots != []
    ensures WrittenSlots(slots, first) + tail
         == Comma(slots[0].before, first)
            + (slots[0].lead + (Written(slots[0].text) + (WrittenSlots(slots[1..], false) + tail)))
  {
    hide Written, Comma;
    var a, b, c, d := Comma(slots[0].before, first), slots[0].lead, Written(slots[0].text),
        WrittenSlots(slots[1..], false);
    assert WrittenSlots(slots, first) == a + (b + (c + d));
    hide WrittenSlots;
    Reassociate(a, b, c, d, tail);
  }

  lemma Reassociate(a: string, b: string, c: string, d: string, e: string)
    ensures (a + (b + (c + d))) + e == a + (b + (c + (d + e)))
  {
  }

  lemma {:induction false} EntriesAreRead(entries: seq<Entry>, first: bool, acc: seq<Pair<Named>>, tail: string)
    requires LegalEntries(entries) && Behind(tail) && (first ==> acc == [])
    ensures ParseMembers(WrittenEntries(entries, first) + tail, first, acc)
         == ParseMembers(tail, first && entries == [], PutEntries(acc, entries))
    decreases entries, 1
  {
    hide ParseMembers, ParseMember, ParseValue, Written, WrittenName, Meaning, Behind, Legal, Comma, LegalName;
    hide Inserted, StartsValue, NamedThen;
    if entries == [] {
      assert WrittenEntries(entries, first) + tail == tail;
    } else {
      var e, more := entries[0], WrittenEntries(entries[1..], false) + tail;
      EntriesFollow(entries[1..], tail);
      EntryIsRead(e, more);
      MemberIsRead(e, more);
      EntryIsPut(e.before, e.lead, first, NamedThen(e, more), Named(NameMeant(e.name), Meaning(e.text)), more, acc);
      EntriesAreRead(entries[1..], false,
          Inserted(acc, Const(NameMeant(e.name)), Named(NameMeant(e.name), Meaning(e.text))), tail);
      FirstEntry(entries, first, tail);
    }
  }

  lemma FirstEntry(entries: seq<Entry>, first: bool, tail: string)
    requires entries != []
    ensures WrittenEntries(entries, first) + tail
         == EntryThen(entries[0], first, WrittenEntries(entries[1..], false) + tail)
  {
    hide EntryThen;
    EntryBefore(entries[0], first, WrittenEntries(entries[1..], false), tail);
  }

  lemma EntryBefore(e: Entry, first: bool, more: string, tail: string)
    ensures EntryThen(e, first, more) + tail == EntryThen(e, first, more + tail)
  {
    hide Written, Comma, WrittenName;
    var a, b, c, d := Comma(e.before, first), e.lead, WrittenName(e.name), e.colonBefore;
    var f, g := e.colonAfter, Written(e.text);
    Reassociate(":", f, g, more, tail);
    Reassociate(a, b, c, d + (":" + (f + (g + more))), tail);
    Associate(d, ":" + (f + (g + more)), tail);
  }

  // And nothing else is read.

  lemma {:induction false} BlanksOf(s: string) returns (b: string)
    ensures Blank(b) && s == b + SkipBlanks(s)
  {
    b := "";
    if s != "" && IsBlank(s[0]) {
      b := BlanksOf(s[1..]);
      b := [s[0]] + b;
    }
  }

  lemma FirstSplit(t: string)
    requires t != ""
    ensures t == [t[0]] + t[1..]
  {
  }

  lemma ExpectOf(r: string, word: string, v: Json)
    requires Expect(r, word, v).Ok?
    ensures Expect(r, word, v).value == v && r == word + Expect(r, word, v).rest
  {
  }

  lemma WordParsed(s: string)
    requires s != "" && SkipBlanks(s) == s
    ensures s[0] == 't' ==> ParseValue(s) == Expect(s[1..], "rue", Boolean(true))
    ensures s[0] == 'f' ==> ParseValue(s) == Expect(s[1..], "alse", Boolean(false))
    ensures s[0] == 'n' ==> ParseValue(s) == Expect(s[1..], "ull", Null)
  {
    hide ParseString, ParseNumber, ParseElements, ParseMembers, NumberOf, Expect;
  }

  lemma WordOf(s: string) returns (word: string)
    requires s != "" && (s[0] == 't' || s[0] == 'f' || s[0] == 'n') && SkipBlanks(s) == s && ParseValue(s).Ok?
    ensures Legal(Word(word)) && Meaning(Word(word)) == ParseValue(s).value && s == word + ParseValue(s).rest
  {
    WordParsed(s);
    FirstSplit(s);
    hide ParseValue, Expect, SkipBlanks;
    if s[0] == 't' {
      ExpectOf(s[1..], "rue", Boolean(true));
      word := "true";
      assert word == ['t'] + "rue";
    } else if s[0] == 'f' {
      ExpectOf(s[1..], "alse", Boolean(false));
      word := "false";
      assert word == ['f'] + "alse";
    } else {
      ExpectOf(s[1..], "ull", Null);
      word := "null";
      assert word == ['n'] + "ull";
    }
  }

  lemma NumOf(s: string) returns (token: string)
    requires s != "" && (Digit(s[0]) || s[0] == '.' || s[0] == '-') && SkipBlanks(s) == s && ParseValue(s).Ok?
    ensures NumberToken(token) && NumberOf(token) == ParseValue(s).value && s == token + ParseValue(s).rest
    ensures SeenToEnd(Num(token), ParseValue(s).rest)
  {
    hide ParseString, ParseElements, ParseMembers, NumberOf;
    var n := ParseNumber(s[1..], s[0] == '.');
    NumberIff(s[1..], s[0] == '.', n.value, n.rest);
    hide ParseNumber, NumberTail;
    token := [s[0]] + n.value;
    assert token[1..] == n.value && s == [s[0]] + s[1..];
  }

  lemma StrOf(s: string) returns (q: Quoted)
    requires s != "" && (s[0] == '\'' || s[0] == '\"') && SkipBlanks(s) == s && ParseValue(s).Ok?
    ensures LegalQuoted(q) && String(Meant(q.inside)) == ParseValue(s).value
    ensures s == WrittenQuoted(q) + ParseValue(s).rest
  {
    hide ParseString, ParseElements, ParseMembers, ParseNumber, NumberOf, Inside, Meant;
    var inside := InsideOf(s[1..], s[0]);
    q := Quoted(s[0], inside);
    FirstSplit(s);
    assert WrittenQuoted(q) + ParseValue(s).rest == [s[0]] + (inside + ([s[0]] + ParseValue(s).rest));
  }

  lemma NameOf(s: string) returns (n: Name)
    requires s != "" && ParseName(s).Ok? && ParseName(s).value != ""
    ensures LegalName(n) && NameMeant(n) == ParseName(s).value && s == WrittenName(n) + ParseName(s).rest
  {
    FirstSplit(s);
    if s[0] == '\'' || s[0] == '\"' {
      hide ParseString, Inside, Meant;
      var inside := InsideOf(s[1..], s[0]);
      n := InQuotes(Quoted(s[0], inside));
      assert WrittenName(n) + ParseName(s).rest == [s[0]] + (inside + ([s[0]] + ParseName(s).rest));
    } else {
      var k := ParseKey(s[1..]);
      KeyIff(s[1..], k.value, k.rest);
      hide ParseKey;
      n := Bare([s[0]] + k.value);
    }
  }

  lemma {:induction false} TextOf(s: string) returns (lead: string, t: Text)
    requires ParseValue(s).Ok?
    ensures Blank(lead) && Legal(t) && Meaning(t) == ParseValue(s).value && SeenToEnd(t, ParseValue(s).rest)
    ensures s == lead + (Written(t) + ParseValue(s).rest)
    decreases |s|, 0
  {
    lead := BlanksOf(s);
    var u := SkipBlanks(s);
    SkippedOnce(s);
    hide SkipBlanks, ParseString, ParseNumber, ParseElements, ParseMembers, NumberOf, NumberTail, Inside, Meant;
    if u[0] == '[' {
      var slots, c := SlotsOf(u[1..], true, []);
      t := List(slots, c);
      ListText(slots, c, u);
    } else if u[0] == '{' {
      var entries, c := EntriesOf(u[1..], true, []);
      t := Dict(entries, c);
      DictText(entries, c, u);
    } else if u[0] == '\'' || u[0] == '\"' {
      var q := StrOf(u);
      t := Str(q);
    } else if u[0] == 't' || u[0] == 'f' || u[0] == 'n' {
      var word := WordOf(u);
      t := Word(word);
    } else {
      var token := NumOf(u);
      t := Num(token);
    }
  }

  lemma SkippedOnce(s: string)
    ensures SkipBlanks(SkipBlanks(s)) == SkipBlanks(s) && ParseValue(SkipBlanks(s)) == ParseValue(s)
  {
    hide ParseString, ParseNumber, ParseElements, ParseMembers, NumberOf;
    if SkipBlanks(s) != "" {
      SkipNothing(SkipBlanks(s));
    }
  }

  lemma ListText(slots: seq<Slot>, c: Close, u: string)
    requires u != "" && u[0] == '[' && SkipBlanks(u) == u && ParseElements(u[1..], true, []).Ok?
    requires LegalSlots(slots) && LegalClose(c, slots == [])
    requires var r := ParseElements(u[1..], true, []);
             r.value == Array([] + Meanings(slots))
             && u[1..] == WrittenSlots(slots, true) + (WrittenClose(c) + ("]" + r.rest))
    ensures var r := ParseValue(u);
            r.Ok? && Legal(List(slots, c)) && Meaning(List(slots, c)) == r.value
            && u == Written(List(slots, c)) + r.rest
  {
    hide ParseElements, LegalSlots, Meanings, WrittenSlots, WrittenClose;
    FirstSplit(u);
    var rest := ParseElements(u[1..], true, []).rest;
    OpenBracket(u[1..]);
    assert [] + Meanings(slots) == Meanings(slots);
    assert Written(List(slots, c)) + rest == "[" + (WrittenSlots(slots, true) + (WrittenClose(c) + ("]" + rest)));
  }

  lemma DictText(entries: seq<Entry>, c: Close, u: string)
    requires u != "" && u[0] == '{' && SkipBlanks(u) == u && ParseMembers(u[1..], true, []).Ok?
    requires LegalEntries(entries) && LegalClose(c, entries == [])
    requires var r := ParseMembers(u[1..], true, []);
             r.value == Object(PutEntries([], entries))
             && u[1..] == WrittenEntries(entries, true) + (WrittenClose(c) + ("}" + r.rest))
    ensures var r := ParseValue(u);
            r.Ok? && Legal(Dict(entries, c)) && Meaning(Dict(entries, c)) == r.value
            && u == Written(Dict(entries, c)) + r.rest
  {
    hide ParseMembers, LegalEntries, PutEntries, WrittenEntries, WrittenClose;
    FirstSplit(u);
    var rest := ParseMembers(u[1..], true, []).rest;
    OpenBracket(u[1..]);
    assert Written(Dict(entries, c)) + rest
        == "{" + (WrittenEntries(entries, true) + (WrittenClose(c) + ("}" + rest)));
  }

  lemma SlotInFront(slot: Slot, slots: seq<Slot>, first: bool, more: string)
    requires LegalSlots(slots) && LegalSlot(slot)
    ensures LegalSlots([slot] + slots) && Meanings([slot] + slots) == [Meaning(slot.text)] + Meanings(slots)
    ensures WrittenSlots([slot] + slots, first) + more
         == Comma(slot.before, first) + (slot.lead + (Written(slot.text) + (WrittenSlots(slots, false) + more)))
  {
    assert ([slot] + slots)[1..] == slots && ([slot] + slots)[0] == slot;
    FirstSlot([slot] + slots, first, more);
  }

  /** What comes before an element: blanks, and a comma with blanks after it unless it is the first. */
  lemma BeforeOf(s: string, first: bool) returns (before: string, after: string)
    requires var t := SkipBlanks(s); t != "" && AfterComma(t, first).Ok?
    ensures Blank(before) && Blank(after) && (first ==> after == "")
    ensures s == Comma(before, first) + (after + AfterComma(SkipBlanks(s), first).value)
    ensures var u := AfterComma(SkipBlanks(s), first).value; u != "" && SkipBlanks(u) == u && |u| <= |s|
  {
    before := BlanksOf(s);
    after := "";
    var t := SkipBlanks(s);
    FirstSplit(t);
    SkipNothing(t);
    if !first {
      after := BlanksOf(t[1..]);
      SkipNothing(SkipBlanks(t[1..]));
    }
  }

  lemma CloseOf(s: string, first: bool, bracket: char) returns (c: Close)
    requires var t := SkipBlanks(s);
             t != "" && bracket != ',' &&
             (t[0] == bracket || (!first && AfterComma(t, first).Ok? && AfterComma(t, first).value[0] == bracket))
    ensures LegalClose(c, first)
    ensures var t := SkipBlanks(s);
            s == WrittenClose(c) + ([bracket] + (if t[0] == bracket then t else AfterComma(t, first).value)[1..])
  {
    var t := SkipBlanks(s);
    FirstSplit(t);
    if t[0] == bracket {
      var before := BlanksOf(s);
      c := Close(before, false, "");
      assert WrittenClose(c) == before;
    } else {
      var before, after := BeforeOf(s, first);
      var u := AfterComma(t, first).value;
      FirstSplit(u);
      c := Close(before, true, after);
      assert WrittenClose(c) + u == Comma(before, first) + (after + u);
    }
  }

  lemma {:induction false} SlotsOf(s: string, first: bool, acc: seq<Json>) returns (slots: seq<Slot>, c: Close)
    requires ParseElements(s, first, acc).Ok?
    ensures LegalSlots(slots) && LegalClose(c, first && slots == [])
    ensures var r := ParseElements(s, first, acc);
            r.value == Array(acc + Meanings(slots))
            && s == WrittenSlots(slots, first) + (WrittenClose(c) + ("]" + r.rest))
    decreases |s|, 1
  {
    var t := SkipBlanks(s);
    hide SkipBlanks, ParseValue;
    if t[0] == ']' || (!first && AfterComma(t, first).value[0] == ']') {
      slots := [];
      c := CloseOf(s, first, ']');
      assert acc + Meanings(slots) == acc;
    } else {
      var u := AfterComma(t, first).value;
      var before, after := BeforeOf(s, first);
      var lead, text := TextOf(u);
      var v, more := ParseValue(u).value, ParseValue(u).rest;
      slots, c := SlotsOf(more, false, acc + [v]);
      var slot, tail := Slot(before, after + lead, text), WrittenClose(c) + ("]" + ParseElements(s, first, acc).rest);
      hide *;
      BlanksJoin(after, lead);
      LegalSlotIs(slot);
      SlotInFront(slot, slots, first, tail);
      Associate(after, lead, Written(text) + more);
      assert acc + [v] + Meanings(slots) == acc + ([v] + Meanings(slots));
      slots := [slot] + slots;
    }
  }

  lemma BlanksJoin(a: string, b: string)
    requires Blank(a) && Blank(b)
    ensures Blank(a + b)
  {
  }

  lemma LegalSlotIs(slot: Slot)
    requires Blank(slot.before) && Blank(slot.lead) && Legal(slot.text)
    ensures LegalSlot(slot)
  {
  }

  lemma EntryInFront(e: Entry, entries: seq<Entry>, first: bool, more: string, acc: seq<Pair<Named>>)
    requires LegalEntries(entries) && LegalEntry(e)
    ensures LegalEntries([e] + entries)
    ensures PutEntries(acc, [e] + entries)
         == PutEntries(Inserted(acc, Const(NameMeant(e.name)), Named(NameMeant(e.name), Meaning(e.text))), entries)
    ensures WrittenEntries([e] + entries, first) + more
         == Comma(e.before, first) + (e.lead + NamedThen(e, WrittenEntries(entries, false) + more))
  {
    assert ([e] + entries)[1..] == entries && ([e] + entries)[0] == e;
    FirstEntry([e] + entries, first, more);
  }

  /** The name, the blanks and the value of a member. */
  lemma {:induction false} MemberOf(s: string) returns (n: Name, colonBefore: string, colonAfter: string, text: Text)
    requires s != "" && ParseMember(s).Ok?
    ensures LegalName(n) && Blank(colonBefore) && Blank(colonAfter) && Legal(text)
    ensures ParseMember(s).value == Named(NameMeant(n), Meaning(text))
    ensures s == WrittenName(n) + (colonBefore + (":" + (colonAfter + (Written(text) + ParseMember(s).rest))))
    decreases |s|, 0
  {
    var r := ParseName(s);
    n := NameOf(s);
    colonBefore := BlanksOf(r.rest);
    var u := SkipBlanks(r.rest);
    FirstSplit(u);
    hide SkipBlanks, ParseName, ParseValue;
    colonAfter, text := TextOf(u[1..]);
  }

  lemma {:induction false} EntriesOf(s: string, first: bool, acc: seq<Pair<Named>>)
    returns (entries: seq<Entry>, c: Close)
    requires ParseMembers(s, first, acc).Ok?
    ensures LegalEntries(entries) && LegalClose(c, first && entries == [])
    ensures var r := ParseMembers(s, first, acc);
            r.value == Object(PutEntries(acc, entries))
            && s == WrittenEntries(entries, first) + (WrittenClose(c) + ("}" + r.rest))
    decreases |s|, 1
  {
    var t := SkipBlanks(s);
    hide SkipBlanks, ParseMember, Inserted;
    if t[0] == '}' || (!first && AfterComma(t, first).value[0] == '}') {
      entries := [];
      c := CloseOf(s, first, '}');
    } else {
      var u := AfterComma(t, first).value;
      var before, after := BeforeOf(s, first);
      var n, colonBefore, colonAfter, text := MemberOf(u);
      var m, more := ParseMember(u).value, ParseMember(u).rest;
      entries, c := EntriesOf(more, false, Inserted(acc, Const(m.name), m));
      var e := Entry(before, after, n, colonBefore, colonAfter, text);
      var tail := WrittenClose(c) + ("}" + ParseMembers(s, first, acc).rest);
      hide *;
      LegalEntryIs(e);
      EntryInFront(e, entries, first, tail, acc);
      NamedThenIs(e, more);
      entries := [e] + entries;
    }
  }

  lemma LegalEntryIs(e: Entry)
    requires Blank(e.before) && Blank(e.lead) && LegalName(e.name) && Blank(e.colonBefore) && Blank(e.colonAfter)
    requires Legal(e.text)
    ensures LegalEntry(e)
  {
  }

  lemma NamedThenIs(e: Entry, more: string)
    ensures NamedThen(e, more)
         == WrittenName(e.name) + (e.colonBefore + (":" + (e.colonAfter + (Written(e.text) + more))))
  {
  }

  /** A value is read if and only if the text is, after blanks, a legal one that means it; what comes behind is left,
      and only has to show where a number ends. */
  lemma ValueIff(s: string, v: Json, rest: string)
    ensures ParseValue(s) == Ok(v, rest) <==> exists lead: string, t: Text :: IsText(s, lead, t, v, rest)
  {
    hide ParseValue, Legal, Meaning, Written, SeenToEnd, Blank;
    if ParseValue(s) == Ok(v, rest) {
      var lead, t := TextOf(s);
      assert IsText(s, lead, t, v, rest);
    }
    if lead: string, t: Text :| IsText(s, lead, t, v, rest) {
      ValueIsRead(t, rest);
      BlankIs(lead);
      BlanksBefore(lead, Written(t) + rest);
    }
  }

  ghost predicate IsText(s: string, lead: string, t: Text, v: Json, rest: string) {
    Blank(lead) && Legal(t) && Meaning(t) == v && SeenToEnd(t, rest) && s == lead + (Written(t) + rest)
  }

  // What no printer writes.

  const ONE := Slot("", " ", Num("1"))
  const ITS := Slot("\t", "\n", Str(Quoted('\'', "it\\\'s")))
  const LOOSE_LIST := List([ONE, ITS], Close(" ", true, "\r"))
  const LOOSE_ENTRY := Entry("", "\t", Bare("a_Z"), " ", "\r\n", LOOSE_LIST)
  const LOOSE := Dict([LOOSE_ENTRY], Close("\n", true, "\t"))

  lemma ItsWritten()
    ensures WrittenSlots([ITS], false) == "\t,\n\'it\\\'s\'"
  {
    LooseString();
    hide Written;
    SlotInFrontOf(ITS, [], false);
    assert [ITS] + [] == [ITS] && WrittenSlots([], false) == "";
    hide WrittenSlots;
    assert WrittenSlots([ITS], false) == "\t," + ("\n" + ("\'it\\\'s\'" + ""));
  }

  lemma OneWritten()
    ensures Written(ONE.text) == "1"
  {
  }

  lemma LooseSlots()
    ensures WrittenSlots([ONE, ITS], true) == " 1\t,\n\'it\\\'s\'"
  {
    hide Written, WrittenSlots;
    ItsWritten();
    OneWritten();
    SlotInFrontOf(ONE, [ITS], true);
    assert [ONE] + [ITS] == [ONE, ITS];
    assert WrittenSlots([ONE, ITS], true) == "" + (" " + ("1" + WrittenSlots([ITS], false)));
  }

  lemma SlotInFrontOf(slot: Slot, slots: seq<Slot>, first: bool)
    ensures WrittenSlots([slot] + slots, first)
         == Comma(slot.before, first) + (slot.lead + (Written(slot.text) + WrittenSlots(slots, false)))
    ensures LegalSlots([slot] + slots) <==> LegalSlot(slot) && LegalSlots(slots)
    ensures Meanings([slot] + slots) == [Meaning(slot.text)] + Meanings(slots)
  {
    assert ([slot] + slots)[1..] == slots && ([slot] + slots)[0] == slot;
  }

  lemma LooseSlotsMean()
    ensures LegalSlots([ONE, ITS]) && Meanings([ONE, ITS]) == [Number(1), String("it\'s")]
  {
    LooseString();
    LooseNumber();
    SlotInFrontOf(ITS, [], false);
    SlotInFrontOf(ONE, [ITS], true);
    hide NumberOf, Inside, Meant, NumberToken;
    assert [ITS] + [] == [ITS] && [ONE] + [ITS] == [ONE, ITS];
    assert LegalSlot(ONE) && LegalSlot(ITS) && LegalSlots([]) && Meanings([]) == [];
    hide LegalSlots, Meanings, Legal;
    assert [Number(1)] + ([String("it\'s")] + []) == [Number(1), String("it\'s")];
  }

  lemma LooseString()
    ensures Inside("it\\\'s", '\'') && Meant("it\\\'s") == "it\'s"
    ensures Written(Str(Quoted('\'', "it\\\'s"))) == "\'it\\\'s\'"
  {
    hide Inside, Meant;
    NothingInside('\'');
    CharacterInFront('s', "", '\'');
    EscapeInFront('\'', "s", '\'');
    CharacterInFront('t', "\\\'s", '\'');
    CharacterInFront('i', "t\\\'s", '\'');
    assert ['s'] + "" == "s" && ['\\', '\''] + "s" == "\\\'s";
    assert ['t'] + "\\\'s" == "t\\\'s" && ['i'] + "t\\\'s" == "it\\\'s";
    assert ['s'] + "" == "s" && "\'" + "s" == "\'s" && ['t'] + "\'s" == "t\'s" && ['i'] + "t\'s" == "it\'s";
  }

  lemma LooseNumber()
    ensures NumberToken("1") && NumberOf("1") == Number(1)
  {
    assert "1"[1..] == "";
    assert FoldDigits(0, "1") == FoldDigits(1, "") == 1;
  }

  lemma LooseEntryWritten()
    ensures WrittenEntries([LOOSE_ENTRY], true) == "\ta_Z :\r\n" + Written(LOOSE_LIST)
  {
    hide Written;
    var value := Written(LOOSE_LIST) + "";
    assert [LOOSE_ENTRY][1..] == [] && WrittenEntries([], false) == "";
    NamedThenIs(LOOSE_ENTRY, "");
    assert EntryThen(LOOSE_ENTRY, true, "") == "" + ("\t" + NamedThen(LOOSE_ENTRY, ""));
    assert NamedThen(LOOSE_ENTRY, "") == "a_Z" + (" " + (":" + ("\r\n" + value)));
  }

  lemma LooseListIs()
    ensures Written(LOOSE_LIST) == "[ 1\t,\n\'it\\\'s\' ,\r]"
    ensures Legal(LOOSE_LIST) && Meaning(LOOSE_LIST) == Array([Number(1), String("it\'s")])
  {
    LooseSlots();
    LooseSlotsMean();
    hide WrittenSlots, LegalSlots, Meanings;
    assert WrittenClose(Close(" ", true, "\r")) == " " + ("," + "\r");
  }

  lemma LooseLegal()
    requires Legal(LOOSE_LIST)
    ensures Legal(LOOSE)
  {
    LegalEntryIs(LOOSE_ENTRY);
    hide LegalEntry;
    assert [LOOSE_ENTRY][1..] == [] && LegalEntries([]);
    assert LegalEntries([LOOSE_ENTRY]);
  }

  lemma LooseMeaning()
    ensures Meaning(LOOSE) == Object([Pair(Const("a_Z"), Named("a_Z", Meaning(LOOSE_LIST)))])
  {
    var named := Named("a_Z", Meaning(LOOSE_LIST));
    EntryMeans();
    hide Meaning, Const, PutEntries;
    assert Meaning(LOOSE) == Object(PutEntries([], [LOOSE_ENTRY])) by {
      DictMeans();
    }
    assert Inserted([], Const("a_Z"), named) == [] + [Pair(Const("a_Z"), named)] + [];
  }

  lemma DictMeans()
    ensures Meaning(LOOSE) == Object(PutEntries([], [LOOSE_ENTRY]))
  {
  }

  lemma EntryMeans()
    ensures PutEntries([], [LOOSE_ENTRY]) == Inserted([], Const("a_Z"), Named("a_Z", Meaning(LOOSE_LIST)))
  {
    hide Inserted, Const;
    assert [LOOSE_ENTRY][1..] == [];
  }

  lemma LooseWritten()
    ensures Written(LOOSE) == "{\ta_Z :\r\n[ 1\t,\n\'it\\\'s\' ,\r]\n,\t}"
  {
    LooseEntryWritten();
    LooseListIs();
    DictWritten();
    hide WrittenEntries, Written;
    var entry := "\ta_Z :\r\n" + "[ 1\t,\n\'it\\\'s\' ,\r]";
    assert entry == "\ta_Z :\r\n[ 1\t,\n\'it\\\'s\' ,\r]";
    assert Written(LOOSE) == "{" + (entry + "\n,\t}");
  }

  lemma DictWritten()
    ensures Written(LOOSE) == "{" + (WrittenEntries([LOOSE_ENTRY], true) + "\n,\t}")
  {
    hide WrittenEntries;
    assert WrittenClose(Close("\n", true, "\t")) + "}" == "\n,\t}";
  }

  /** Tabs, line breaks, an unquoted name, single quotes, an escaped quote and commas before the closing brackets. */
  lemma LooseExample(rest: string)
    ensures ParseValue("{\ta_Z :\r\n[ 1\t,\n\'it\\\'s\' ,\r]\n,\t}" + rest)
         == Ok(Object([Pair(Const("a_Z"), Named("a_Z", Array([Number(1), String("it\'s")])))]), rest)
  {
    LooseListIs();
    LooseLegal();
    LooseMeaning();
    LooseWritten();
    hide Written, Legal, Meaning, ParseValue;
    ValueIsRead(LOOSE, rest);
  }
}
