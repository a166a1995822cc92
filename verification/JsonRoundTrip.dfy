/** Parsing what either printer writes gives the value back. */
module JsonRoundTrip {
  import opened BasicParser
  import opened FlatMap
  import opened JsonSyntax

  // Strings.

  lemma StringEnd(rest: string)
    ensures ParseString("\"" + rest, '\"', false) == Ok("", rest)
  {
    assert ("\"" + rest)[1..] == rest;
  }

  lemma Associate(a: string, b: string, c: string)
    ensures (a + b) + c == a + (b + c)
  {
  }

  lemma {:induction false} StringRoundTrip(s: string, rest: string)
    ensures ParseString(EscapeAll(s) + ("\"" + rest), '\"', false) == Ok(s, rest)
  {
    hide ParseString, Escape;
    if s == "" {
      StringEnd(rest);
      assert "" + ("\"" + rest) == "\"" + rest;
    } else {
      StringRoundTrip(s[1..], rest);
      EscapeRoundTrip(s[0], EscapeAll(s[1..]) + ("\"" + rest));
      Associate(Escape(s[0]), EscapeAll(s[1..]), "\"" + rest);
      assert [s[0]] + s[1..] == s;
    }
  }

  lemma EscapeUndone(c: char)
    ensures var e := Escape(c);
            if |e| == 1 then e[0] == c && c !in "\n\r\\\""
            else |e| == 2 && e[0] == '\\' && e[1] !in "\n\r" && Unescape(e[1]) == [c]
  {
  }

  /** What an escaped character stands for. */
  lemma EscapedNext(d: char, tail: string)
    requires d !in "\n\r"
    ensures ParseString([d] + tail, '\"', true) == Prepend(Unescape(d), ParseString(tail, '\"', false))
  {
    hide Unescape;
    assert ([d] + tail)[1..] == tail;
  }

  lemma EscapeRoundTrip(c: char, tail: string)
    ensures ParseString(Escape(c) + tail, '\"', false) == Prepend([c], ParseString(tail, '\"', false))
  {
    var e := Escape(c);
    EscapeUndone(c);
    hide Escape, Unescape;
    if |e| == 1 {
      assert (e + tail)[1..] == tail;
    } else {
      assert (e + tail)[1..] == [e[1]] + tail;
      assert ([e[1]] + tail)[1..] == tail;
      EscapedNext(e[1], tail);
    }
  }

  // Numbers.

  lemma WrapStep(x: int, d: int)
    ensures Wrap32(Wrap32(x) * 10 + d) == Wrap32(x * 10 + d)
  {
    var turns := WrapTurns(x);
    var n := x * 10 + d;
    assert Wrap32(x) * 10 + d == n - 10 * turns * 0x1_0000_0000;
    hide Wrap32;
    WrapSame(n, 10 * turns);
  }

  lemma WrapTurns(x: int) returns (turns: int)
    ensures Wrap32(x) == x - turns * 0x1_0000_0000
  {
    var q, r := x / 0x1_0000_0000, x % 0x1_0000_0000;
    assert x == q * 0x1_0000_0000 + r;
    turns := if r < 0x8000_0000 then q else q + 1;
  }

  /** Whole turns do not matter. */
  lemma WrapSame(n: int, turns: int)
    ensures Wrap32(n - turns * 0x1_0000_0000) == Wrap32(n)
  {
    var q, r := n / 0x1_0000_0000, n % 0x1_0000_0000;
    assert n == q * 0x1_0000_0000 + r;
    Remainder(n - turns * 0x1_0000_0000, q - turns, r);
  }

  lemma Remainder(n: int, q: int, r: nat)
    requires n == q * 0x1_0000_0000 + r && r < 0x1_0000_0000
    ensures n % 0x1_0000_0000 == r
  {
  }

  lemma {:induction false} FoldMore(acc: int, s: string, d: nat)
    requires d < 10 && forall i :: 0 <= i < |s| ==> IsDigit(s[i])
    ensures FoldDigits(acc, s + [DigitChar(d)]) == Wrap32(FoldDigits(acc, s) * 10 + d)
    decreases s
  {
    if s == "" {
      assert s + [DigitChar(d)] == [DigitChar(d)];
      assert FoldDigits(Wrap32(acc * 10 + d), [DigitChar(d)][1..]) == Wrap32(acc * 10 + d);
    } else {
      FoldMore(Wrap32(acc * 10 + (s[0] as int - '0' as int)), s[1..], d);
      assert (s + [DigitChar(d)])[1..] == s[1..] + [DigitChar(d)];
    }
  }

  lemma {:induction false} DigitsValue(n: nat)
    ensures forall i :: 0 <= i < |Digits(n)| ==> IsDigit(Digits(n)[i])
    ensures FoldDigits(0, Digits(n)) == Wrap32(n)
  {
    if n < 10 {
      assert FoldDigits(n, [DigitChar(n)][1..]) == n;
    } else {
      DigitsValue(n / 10);
      FoldMore(0, Digits(n / 10), n % 10);
      WrapStep(n / 10, n % 10);
    }
  }

  lemma FromSmall(n: int)
    requires -0x8000_0000 <= n < 0x8000_0000
    ensures FromInteger64(n) == if n < 0 then "-" + Digits(-n) else Digits(n)
  {
    hide Digits;
    assert n < 0 ==> -n % 0x1_0000_0000 == -n;
    assert n >= 0 ==> n % 0x1_0000_0000 == n;
  }

  lemma WrapSmall(n: int)
    ensures -0x8000_0000 <= n < 0x8000_0000 ==> Wrap32(n) == n
    ensures Wrap32(Wrap32(n)) == Wrap32(n)
  {
  }

  lemma WrapNegated(n: int)
    requires 0 < n <= 0x8000_0000
    ensures Wrap32(-Wrap32(n)) == -n
  {
  }

  lemma ToIntegerSigned(d: string)
    ensures ToInteger("-" + d) == Wrap32(-FoldDigits(0, d))
  {
    assert ("-" + d)[1..] == d;
  }

  lemma ToIntegerUnsigned(d: string)
    requires d != "" && IsDigit(d[0])
    ensures ToInteger(d) == Wrap32(FoldDigits(0, d))
  {
  }

  /** Printing an integral number and reading it gives it back exactly when it fits 32 signed bits. */
  lemma IntegerRoundTripIff(n: int)
    ensures ToInteger(FromInteger64(n)) == n <==> -0x8000_0000 <= n < 0x8000_0000
  {
    if -0x8000_0000 <= n < 0 {
      DigitsValue(-n);
      FromSmall(n);
      WrapNegated(-n);
      hide *;
      assert ("-" + Digits(-n))[1..] == Digits(-n);
      ToIntegerSigned(Digits(-n));
    } else if 0 <= n < 0x8000_0000 {
      DigitsValue(n);
      FromSmall(n);
      WrapSmall(n);
      hide *;
      ToIntegerUnsigned(Digits(n));
    }
  }

  /** What may follow a value: anything, but a number has to see some character that does not continue it. */
  predicate Delimited(v: Json, rest: string) {
    v.Number? ==> rest != "" && !IsDigit(rest[0]) && rest[0] != '.'
  }

  lemma {:induction false} NumberToken(d: string, rest: string)
    requires forall i :: 0 <= i < |d| ==> IsDigit(d[i])
    requires rest != "" && !IsDigit(rest[0]) && rest[0] != '.'
    ensures ParseNumber(d + rest, false) == Ok(d, rest)
  {
    if d == "" {
      assert d + rest == rest;
    } else {
      NumberToken(d[1..], rest);
      assert (d + rest)[1..] == d[1..] + rest;
      assert [d[0]] + d[1..] == d;
    }
  }

  lemma ParseNumberValue(c: char, d: string, rest: string)
    requires IsDigit(c) || c == '-'
    requires (forall i :: 0 <= i < |d| ==> IsDigit(d[i])) && ParseNumber(d + rest, false) == Ok(d, rest)
    ensures ParseValue([c] + (d + rest)) == Ok(Number(ToInteger([c] + d)), rest)
  {
    hide ParseNumber, ToInteger;
    var s := [c] + (d + rest);
    assert s[0] == c && s[1..] == d + rest;
    assert SkipBlanks(s) == s;
    assert '.' !in [c] + d;
  }

  lemma TokenShape(n: int)
    requires -0x8000_0000 <= n < 0x8000_0000
    ensures var t := FromInteger64(n);
            t != "" && (IsDigit(t[0]) || t[0] == '-') && forall i :: 1 <= i < |t| ==> IsDigit(t[i])
  {
    FromSmall(n);
    DigitsValue(if n < 0 then -n else n);
    hide Digits, FromInteger64, FoldDigits;
  }

  lemma NumberRoundTrip(n: int, rest: string)
    requires -0x8000_0000 <= n < 0x8000_0000 && Delimited(Number(n), rest)
    ensures ParseValue(FromInteger64(n) + rest) == Ok(Number(n), rest)
  {
    hide FromInteger64, FoldDigits, ParseNumber, ToInteger, ParseValue;
    var t := FromInteger64(n);
    IntegerRoundTripIff(n);
    TokenShape(n);
    var c, d := t[0], t[1..];
    assert forall i :: 0 <= i < |d| ==> d[i] == t[i + 1] && IsDigit(d[i]);
    NumberToken(d, rest);
    ParseNumberValue(c, d, rest);
    assert [c] + d == t;
    Associate([c], d, rest);
  }

  // Blanks.

  predicate AllBlank(b: string) {
    forall i :: 0 <= i < |b| ==> IsBlank(b[i])
  }

  lemma {:induction false} BlanksSkipped(b: string, t: string)
    requires AllBlank(b)
    ensures SkipBlanks(b + t) == SkipBlanks(t)
  {
    if b == "" {
      assert b + t == t;
    } else {
      BlanksSkipped(b[1..], t);
      assert (b + t)[1..] == b[1..] + t;
    }
  }

  lemma {:induction false} BlanksAreBlank(n: nat)
    ensures AllBlank(Blanks(n))
  {
    if n > 0 {
      BlanksAreBlank(n - 1);
    }
  }

  lemma IndentBlank(human: bool, tabs: nat)
    ensures AllBlank(Indent(human, tabs)) && AllBlank(NewLine(human)) && AllBlank(NewLine(human) + Indent(human, tabs))
  {
    BlanksAreBlank(4 * tabs);
  }

  // Values.

  lemma BlanksBefore(b: string, t: string)
    requires AllBlank(b)
    ensures ParseValue(b + t) == ParseValue(t)
    ensures forall first, acc :: ParseElements(b + t, first, acc) == ParseElements(t, first, acc)
    ensures forall first, acc :: ParseMembers(b + t, first, acc) == ParseMembers(t, first, acc)
  {
    BlanksSkipped(b, t);
  }

  /** Every printed value starts with a character that is neither blank nor a comma nor a closing bracket. */
  lemma PrintStart(human: bool, v: Json, tabs: nat)
    requires WellFormed(v)
    ensures var t := Print(human, v, tabs); t != "" && !IsBlank(t[0]) && t[0] != ',' && t[0] != ']' && t[0] != '}'
  {
    match v {
      case Number(n) => TokenShape(n);
      case _ =>
    }
  }

  lemma WordRoundTrip(word: string, v: Json, rest: string)
    requires (word == "null" && v == Null) || (word == "true" && v == Boolean(true)) ||
             (word == "false" && v == Boolean(false))
    ensures ParseValue(word + rest) == Ok(v, rest)
  {
    hide ParseString, ParseNumber, ParseElements, ParseMembers, NumberOf;
    WordTail(word, rest);
    SkipNothing(word + rest);
  }

  lemma WordTail(word: string, rest: string)
    requires word != ""
    ensures (word + rest)[1..] == word[1..] + rest && word[1..] <= word[1..] + rest
    ensures (word[1..] + rest)[|word[1..]|..] == rest
    ensures "null"[1..] == "ull" && "true"[1..] == "rue" && "false"[1..] == "alse"
  {
  }

  lemma QuotedRoundTrip(s: string, rest: string)
    ensures ParseValue(Quote(s) + rest) == Ok(String(s), rest)
    ensures ParseName(Quote(s) + rest) == Ok(s, rest)
  {
    hide ParseString, EscapeAll;
    StringRoundTrip(s, rest);
    var t := Quote(s) + rest;
    assert t == "\"" + (EscapeAll(s) + ("\"" + rest));
    assert t[0] == '\"' && t[1..] == EscapeAll(s) + ("\"" + rest);
    assert SkipBlanks(t) == t;
  }

  lemma OpenBracket(r: string)
    ensures ParseValue("[" + r) == ParseElements(r, true, [])
    ensures ParseValue("{" + r) == ParseMembers(r, true, [])
  {
    hide ParseElements, ParseMembers;
    assert ("[" + r)[1..] == r && ("{" + r)[1..] == r;
    assert SkipBlanks("[" + r) == "[" + r && SkipBlanks("{" + r) == "{" + r;
  }

  lemma CloseBracket(b: string, rest: string, first: bool, acc: seq<Json>, members: seq<Pair<Named>>)
    requires AllBlank(b)
    ensures ParseElements(b + ("]" + rest), first, acc) == Ok(Array(acc), rest)
    ensures ParseMembers(b + ("}" + rest), first, members) == Ok(Object(members), rest)
  {
    BlanksSkipped(b, "]" + rest);
    BlanksSkipped(b, "}" + rest);
    assert SkipBlanks("]" + rest) == "]" + rest && SkipBlanks("}" + rest) == "}" + rest;
    assert ("]" + rest)[1..] == rest && ("}" + rest)[1..] == rest;
  }

  // One more element.

  /** t starts like a value. */
  predicate StartsValue(t: string) {
    t != "" && !IsBlank(t[0]) && t[0] != ',' && t[0] != ']' && t[0] != '}'
  }

  lemma SkipNothing(t: string)
    requires t != "" && !IsBlank(t[0])
    ensures SkipBlanks(t) == t
  {
  }

  lemma FirstElement(b: string, t: string, v: Json, more: string)
    requires AllBlank(b) && StartsValue(t) && ParseValue(t) == Ok(v, more)
    ensures ParseElements(b + t, true, []) == ParseElements(more, false, [v])
  {
    hide ParseValue;
    BlanksSkipped(b, t);
    SkipNothing(t);
    assert [] + [v] == [v];
  }

  lemma NextElement(b: string, t: string, v: Json, more: string, acc: seq<Json>)
    requires AllBlank(b) && StartsValue(t) && ParseValue(t) == Ok(v, more)
    ensures ParseElements("," + (b + t), false, acc) == ParseElements(more, false, acc + [v])
  {
    hide ParseValue;
    BlanksSkipped(b, t);
    SkipNothing(t);
    SkipNothing("," + (b + t));
    assert ("," + (b + t))[1..] == b + t;
  }

  /** The text of a member, after its indentation: name, colon, value, and what comes next. */
  ghost predicate MemberText(t: string, name: string, colon: string, value: string, v: Json, more: string) {
    && t == Quote(name) + (colon + (value + more))
    && name != "" && (colon == ":" || colon == ": ")
    && ParseValue(value + more) == Ok(v, more)
  }

  lemma MemberParses(t: string, name: string, colon: string, value: string, v: Json, more: string)
    requires MemberText(t, name, colon, value, v, more)
    ensures t[0] == '\"' && ParseMember(t) == Ok(Named(name, v), more)
  {
    hide ParseValue;
    var x := value + more;
    QuotedRoundTrip(name, colon + x);
    SkipNothing(colon + x);
    if colon == ": " {
      BlanksBefore(" ", x);
      assert (colon + x)[1..] == " " + x;
    } else {
      assert (colon + x)[1..] == x;
    }
  }

  lemma FirstMember(b: string, t: string, name: string, colon: string, value: string, v: Json, more: string)
    requires AllBlank(b) && MemberText(t, name, colon, value, v, more)
    ensures ParseMembers(b + t, true, []) == ParseMembers(more, false, Inserted([], Const(name), Named(name, v)))
  {
    MemberParses(t, name, colon, value, v, more);
    hide ParseMember, Inserted, MemberText;
    BlanksSkipped(b, t);
    SkipNothing(t);
  }

  lemma NextMember(b: string, t: string, name: string, colon: string, value: string, v: Json, more: string,
                   acc: seq<Pair<Named>>)
    requires AllBlank(b) && MemberText(t, name, colon, value, v, more)
    ensures ParseMembers("," + (b + t), false, acc)
            == ParseMembers(more, false, Inserted(acc, Const(name), Named(name, v)))
  {
    MemberParses(t, name, colon, value, v, more);
    hide ParseMember, Inserted, MemberText;
    BlanksSkipped(b, t);
    SkipNothing(t);
    SkipNothing("," + (b + t));
    assert ("," + (b + t))[1..] == b + t;
  }

  lemma {:induction false} RankAtEnd(data: seq<Pair<Named>>, h: int)
    requires forall i :: 0 <= i < |data| ==> data[i].key.hash < h
    ensures Rank(data, h) == |data|
  {
    if data != [] {
      RankAtEnd(data[1..], h);
    }
  }

  /** In order of hashes, every `put` appends. */
  lemma InsertedLast(acc: seq<Pair<Named>>, m: Pair<Named>)
    requires forall i :: 0 <= i < |acc| ==> acc[i].key.hash < m.key.hash
    ensures Inserted(acc, m.key, m.value) == acc + [m]
  {
    RankAtEnd(acc, m.key.hash);
  }

  // The round trip.

  lemma {:induction false} ValueRoundTrip(human: bool, v: Json, tabs: nat, rest: string)
    requires WellFormed(v) && Delimited(v, rest)
    ensures ParseValue(Print(human, v, tabs) + rest) == Ok(v, rest)
    decreases v, 1
  {
    match v {
      case Null => WordRoundTrip("null", v, rest);
      case Boolean(b) => WordRoundTrip(if b then "true" else "false", v, rest);
      case Number(n) => NumberRoundTrip(n, rest);
      case String(s) => QuotedRoundTrip(s, rest);
      case Array(items) => ArrayRoundTrip(human, items, tabs, rest);
      case Object(members) => ObjectRoundTrip(human, members, tabs, rest);
    }
  }

  /** What follows an element: a comma, a blank or a bracket, none of which continues a number. */
  lemma MoreDelimits(human: bool, items: seq<Json>, members: seq<Pair<Named>>, tabs: nat, b: string, end: string,
                     v: Json)
    requires AllBlank(b) && end != "" && (end[0] == ']' || end[0] == '}')
    ensures Delimited(v, PrintItems(human, items, tabs) + (b + end))
    ensures Delimited(v, PrintMembers(human, members, tabs) + (b + end))
  {
    hide PrintItem, PrintMember;
  }

  /** Line break and indentation before a printed value. */
  function Lead(human: bool, tabs: nat): (b: string)
    ensures AllBlank(b)
  {
    IndentBlank(human, tabs);
    NewLine(human) + Indent(human, tabs)
  }

  lemma Regroup(a: string, indent: string, value: string, others: string, tail: string)
    ensures a + (indent + value) + others + tail == (a + indent) + (value + (others + tail))
  {
  }

  lemma RegroupAll(open: string, nl: string, first: string, others: string, indent: string, close: string, rest: string)
    ensures open + nl + first + others + nl + indent + close + rest
         == open + nl + (first + (others + ((nl + indent) + (close + rest))))
  {
    assert first + others + nl + indent + close + rest == first + (others + ((nl + indent) + (close + rest)));
  }

  lemma ItemsText(human: bool, items: seq<Json>, tabs: nat, tail: string)
    requires items != []
    ensures PrintItems(human, items, tabs) + tail
         == "," + (Lead(human, tabs) + (Print(human, items[0], tabs) + (PrintItems(human, items[1..], tabs) + tail)))
  {
    hide Print, AllBlank, Indent, NewLine;
    var indent, value, others := Indent(human, tabs), Print(human, items[0], tabs), PrintItems(human, items[1..], tabs);
    Regroup("," + NewLine(human), indent, value, others, tail);
    Associate(",", NewLine(human), indent);
    Associate(",", Lead(human, tabs), value + (others + tail));
  }

  lemma ArrayText(human: bool, items: seq<Json>, tabs: nat, rest: string)
    requires items != []
    ensures Print(human, Array(items), tabs) + rest
         == "[" + (Lead(human, tabs + 1) + (Print(human, items[0], tabs + 1)
                   + (PrintItems(human, items[1..], tabs + 1) + (Lead(human, tabs) + ("]" + rest)))))
  {
    var indent, value, others := Indent(human, tabs + 1), Print(human, items[0], tabs + 1),
        PrintItems(human, items[1..], tabs + 1);
    assert Print(human, Array(items), tabs)
        == "[" + NewLine(human) + (indent + value) + others + NewLine(human) + Indent(human, tabs) + "]";
    hide Print, PrintItems, AllBlank, Indent, NewLine;
    var b, nl := Lead(human, tabs), NewLine(human);
    RegroupAll("[", nl, indent + value, others, Indent(human, tabs), "]", rest);
    Associate(indent, value, others + (b + ("]" + rest)));
    Associate("[" + nl, indent, value + (others + (b + ("]" + rest))));
    Associate("[", nl, indent);
    Associate("[", Lead(human, tabs + 1), value + (others + (b + ("]" + rest))));
  }

  lemma {:induction false} ItemsRoundTrip(human: bool, items: seq<Json>, tabs: nat, acc: seq<Json>, b: string,
                                          rest: string)
    requires (forall i :: 0 <= i < |items| ==> WellFormed(items[i])) && AllBlank(b)
    ensures ParseElements(PrintItems(human, items, tabs) + (b + ("]" + rest)), false, acc)
            == Ok(Array(acc + items), rest)
    decreases items, 0
  {
    hide ParseElements, Print, ParseValue, AllBlank, Lead, Delimited;
    var tail := b + ("]" + rest);
    if items == [] {
      CloseBracket(b, rest, false, acc, []);
      assert PrintItems(human, items, tabs) + tail == tail && acc + items == acc;
    } else {
      hide PrintItems;
      var v, more := items[0], PrintItems(human, items[1..], tabs) + tail;
      MoreDelimits(human, items[1..], [], tabs, b, "]" + rest, v);
      ValueRoundTrip(human, v, tabs, more);
      PrintStart(human, v, tabs);
      NextElement(Lead(human, tabs), Print(human, v, tabs) + more, v, more, acc);
      ItemsRoundTrip(human, items[1..], tabs, acc + [v], b, rest);
      ItemsText(human, items, tabs, tail);
      assert (acc + [v]) + items[1..] == acc + items;
    }
  }

  lemma EmptyRoundTrip(human: bool, tabs: nat, rest: string)
    ensures ParseValue(Print(human, Array([]), tabs) + rest) == Ok(Array([]), rest)
    ensures ParseValue(Print(human, Object([]), tabs) + rest) == Ok(Object([]), rest)
  {
    hide ParseElements, ParseMembers, ParseValue;
    OpenBracket("]" + rest);
    OpenBracket("}" + rest);
    CloseBracket("", rest, true, [], []);
    assert "[]" + rest == "[" + ("]" + rest) && "" + ("]" + rest) == "]" + rest;
    assert "{}" + rest == "{" + ("}" + rest) && "" + ("}" + rest) == "}" + rest;
  }

  lemma ArrayOpens(human: bool, v: Json, tabs: nat, more: string)
    requires WellFormed(v) && ParseValue(Print(human, v, tabs) + more) == Ok(v, more)
    ensures ParseValue("[" + (Lead(human, tabs) + (Print(human, v, tabs) + more))) == ParseElements(more, false, [v])
  {
    hide ParseElements, ParseMembers, ParseValue, AllBlank, Lead;
    PrintStart(human, v, tabs);
    hide Print;
    OpenBracket(Lead(human, tabs) + (Print(human, v, tabs) + more));
    FirstElement(Lead(human, tabs), Print(human, v, tabs) + more, v, more);
  }

  lemma {:induction false} ArrayRoundTrip(human: bool, items: seq<Json>, tabs: nat, rest: string)
    requires forall i :: 0 <= i < |items| ==> WellFormed(items[i])
    ensures ParseValue(Print(human, Array(items), tabs) + rest) == Ok(Array(items), rest)
    decreases items, 1
  {
    if items == [] {
      EmptyRoundTrip(human, tabs, rest);
    } else {
      hide ParseElements, ParseMembers, ParseValue, Print, PrintItems, AllBlank, Lead, Delimited;
      var v, others, b := items[0], items[1..], Lead(human, tabs);
      var more := PrintItems(human, others, tabs + 1) + (b + ("]" + rest));
      MoreDelimits(human, others, [], tabs + 1, b, "]" + rest, v);
      assert |others| < |items|;
      ValueRoundTrip(human, v, tabs + 1, more);
      ArrayOpens(human, v, tabs + 1, more);
      ItemsRoundTrip(human, others, tabs + 1, [v], b, rest);
      ArrayText(human, items, tabs, rest);
      assert [v] + others == items;
    }
  }

  /** A printed member without its indentation, and what comes next. */
  function MemberThen(human: bool, m: Pair<Named>, tabs: nat, more: string): string {
    Quote(m.value.name) + (Colon(human) + (Print(human, m.value.value, tabs) + more))
  }

  lemma MemberReady(human: bool, m: Pair<Named>, tabs: nat, more: string)
    requires m.value.name != "" && ParseValue(Print(human, m.value.value, tabs) + more) == Ok(m.value.value, more)
    ensures MemberText(MemberThen(human, m, tabs, more), m.value.name, Colon(human), Print(human, m.value.value, tabs),
            m.value.value, more)
  {
    hide ParseValue, Print;
  }

  lemma MemberGrouped(human: bool, m: Pair<Named>, tabs: nat, more: string)
    ensures PrintMember(human, m, tabs) + more == Indent(human, tabs) + MemberThen(human, m, tabs, more)
  {
    hide Print, Indent, Quote;
    var i, q, c, p := Indent(human, tabs), Quote(m.value.name), Colon(human), Print(human, m.value.value, tabs);
    assert i + q + c + p + more == i + (q + (c + (p + more)));
  }

  lemma MembersText(human: bool, members: seq<Pair<Named>>, tabs: nat, tail: string)
    requires members != []
    ensures PrintMembers(human, members, tabs) + tail
         == "," + (Lead(human, tabs)
                   + MemberThen(human, members[0], tabs, PrintMembers(human, members[1..], tabs) + tail))
  {
    hide AllBlank, Indent, NewLine, MemberThen, PrintMember;
    var first, others := PrintMember(human, members[0], tabs), PrintMembers(human, members[1..], tabs);
    MemberGrouped(human, members[0], tabs, others + tail);
    var nl, rest := NewLine(human), MemberThen(human, members[0], tabs, others + tail);
    assert "," + nl + first + others + tail == "," + nl + (first + (others + tail));
    assert "," + nl + (Indent(human, tabs) + rest) == "," + ((nl + Indent(human, tabs)) + rest);
  }

  lemma ObjectText(human: bool, members: seq<Pair<Named>>, tabs: nat, rest: string)
    requires members != []
    ensures Print(human, Object(members), tabs) + rest
         == "{" + (Lead(human, tabs + 1)
                   + MemberThen(human, members[0], tabs + 1,
                                PrintMembers(human, members[1..], tabs + 1) + (Lead(human, tabs) + ("}" + rest))))
  {
    var first, others := PrintMember(human, members[0], tabs + 1), PrintMembers(human, members[1..], tabs + 1);
    assert Print(human, Object(members), tabs)
        == "{" + NewLine(human) + first + others + NewLine(human) + Indent(human, tabs) + "}";
    hide Print, PrintMembers, AllBlank, Indent, NewLine, MemberThen, PrintMember;
    var b, nl := Lead(human, tabs), NewLine(human);
    var tail := b + ("}" + rest);
    MemberGrouped(human, members[0], tabs + 1, others + tail);
    var t := MemberThen(human, members[0], tabs + 1, others + tail);
    RegroupAll("{", nl, first, others, Indent(human, tabs), "}", rest);
    Associate(first, others, tail);
    Associate("{" + nl, Indent(human, tabs + 1), t);
    Associate("{", nl, Indent(human, tabs + 1));
    Associate("{", nl + Indent(human, tabs + 1), t);
  }

  /** Printed members, in whatever order, are put one after the other. */
  lemma {:induction false} MembersParse(human: bool, members: seq<Pair<Named>>, tabs: nat, acc: seq<Pair<Named>>,
                                        b: string, rest: string)
    requires MembersReadable(members) && AllBlank(b)
    ensures ParseMembers(PrintMembers(human, members, tabs) + (b + ("}" + rest)), false, acc)
            == Ok(Object(PutAll(acc, members)), rest)
    decreases members, 0
  {
    hide ParseMembers, Print, ParseValue, Inserted, AllBlank, Lead, Delimited, MemberThen, MemberText;
    var tail := b + ("}" + rest);
    if members == [] {
      CloseBracket(b, rest, false, [], acc);
      assert PrintMembers(human, members, tabs) + tail == tail;
    } else {
      ReadableFirst(members);
      PutAllFirst(acc, members);
      hide PrintMembers, PutAll, MembersReadable, WellFormed;
      var m, more := members[0], PrintMembers(human, members[1..], tabs) + tail;
      MoreDelimits(human, [], members[1..], tabs, b, "}" + rest, m.value.value);
      MemberValueRoundTrip(human, m, tabs, more);
      MemberReady(human, m, tabs, more);
      NextMember(Lead(human, tabs), MemberThen(human, m, tabs, more), m.value.name, Colon(human),
                 Print(human, m.value.value, tabs), m.value.value, more, acc);
      NamedAgain(m);
      MembersParse(human, members[1..], tabs, Inserted(acc, Const(m.value.name), m.value), b, rest);
      MembersText(human, members, tabs, tail);
    }
  }

  lemma NamedAgain(m: Pair<Named>)
    ensures Named(m.value.name, m.value.value) == m.value
  {
  }

  lemma {:induction false} MemberValueRoundTrip(human: bool, m: Pair<Named>, tabs: nat, more: string)
    requires WellFormed(m.value.value) && Delimited(m.value.value, more)
    ensures ParseValue(Print(human, m.value.value, tabs) + more) == Ok(m.value.value, more)
    decreases m
  {
    ValueRoundTrip(human, m.value.value, tabs, more);
  }

  lemma ObjectOpens(human: bool, m: Pair<Named>, tabs: nat, more: string)
    requires m.value.name != "" && ParseValue(Print(human, m.value.value, tabs) + more) == Ok(m.value.value, more)
    ensures ParseValue("{" + (Lead(human, tabs) + MemberThen(human, m, tabs, more)))
         == ParseMembers(more, false, Inserted([], Const(m.value.name), m.value))
  {
    hide ParseMembers, Print, ParseValue, Inserted, AllBlank, Lead, MemberThen, MemberText;
    var t := MemberThen(human, m, tabs, more);
    MemberReady(human, m, tabs, more);
    OpenBracket(Lead(human, tabs) + t);
    FirstMember(Lead(human, tabs), t, m.value.name, Colon(human), Print(human, m.value.value, tabs), m.value.value,
        more);
    NamedAgain(m);
  }

  lemma ReadableFirst(members: seq<Pair<Named>>)
    requires members != [] && MembersReadable(members)
    ensures members[0].value.name != "" && WellFormed(members[0].value.value) && MembersReadable(members[1..])
  {
  }

  lemma PutAllFirst(acc: seq<Pair<Named>>, members: seq<Pair<Named>>)
    requires members != []
    ensures PutAll(acc, members) == PutAll(Inserted(acc, Const(members[0].value.name), members[0].value), members[1..])
  {
  }

  /** The text of an object gives the map that putting its members in turn leaves. */
  lemma {:induction false} ObjectParses(human: bool, members: seq<Pair<Named>>, tabs: nat, rest: string)
    requires MembersReadable(members)
    ensures ParseValue(Print(human, Object(members), tabs) + rest) == Ok(Object(PutAll([], members)), rest)
    decreases members, 1
  {
    if members == [] {
      EmptyRoundTrip(human, tabs, rest);
    } else {
      PutAllFirst([], members);
      ReadableFirst(members);
      hide ParseMembers, Print, PrintMembers, ParseValue, Inserted, AllBlank, Lead, Delimited, MemberThen, PutAll,
          MembersReadable, WellFormed;
      var m, b := members[0], Lead(human, tabs);
      var more := PrintMembers(human, members[1..], tabs + 1) + (b + ("}" + rest));
      MoreDelimits(human, [], members[1..], tabs + 1, b, "}" + rest, m.value.value);
      MemberValueRoundTrip(human, m, tabs + 1, more);
      ObjectOpens(human, m, tabs + 1, more);
      MembersParse(human, members[1..], tabs + 1, Inserted([], Const(m.value.name), m.value), b, rest);
      ObjectText(human, members, tabs, rest);
    }
  }

  lemma {:induction false} PutAllInOrder(acc: seq<Pair<Named>>, members: seq<Pair<Named>>)
    requires WellFormed(Object(acc + members))
    ensures PutAll(acc, members) == acc + members
    decreases members
  {
    if members == [] {
    } else {
      AtMember(acc, members);
      InsertedLast(acc, members[0]);
      PutAllInOrder(acc + [members[0]], members[1..]);
    }
  }

  lemma AtMember(acc: seq<Pair<Named>>, members: seq<Pair<Named>>)
    requires members != [] && WellFormed(Object(acc + members))
    ensures members[0].key == Const(members[0].value.name)
    ensures forall i :: 0 <= i < |acc| ==> acc[i].key.hash < members[0].key.hash
    ensures (acc + [members[0]]) + members[1..] == acc + members
  {
    var all := acc + members;
    assert all[|acc|] == members[0] && forall i :: 0 <= i < |acc| ==> all[i] == acc[i];
  }

  lemma {:induction false} ObjectRoundTrip(human: bool, members: seq<Pair<Named>>, tabs: nat, rest: string)
    requires WellFormed(Object(members))
    ensures ParseValue(Print(human, Object(members), tabs) + rest) == Ok(Object(members), rest)
    decreases members, 2
  {
    ObjectParses(human, members, tabs, rest);
    assert [] + members == members;
    PutAllInOrder([], members);
  }

  // What the printers write, character by character.

  lemma EscapesWritten(c: char)
    ensures Escape('\\') == "\\\\" && Escape('\"') == "\\\"" && Escape(9 as char) == "\\t"
    ensures Escape(10 as char) == "\\n" && Escape(13 as char) == "\\r"
    ensures Escape(8 as char) == "\\b" && Escape(12 as char) == "\\f"
    ensures c != '\\' && c != '\"' && c as int !in {8, 9, 10, 12, 13} ==> Escape(c) == [c]
  {
  }

  /** The human-readable form has four spaces a level, a line for every element, and a space after every colon. */
  lemma {:induction false} LayoutWritten(tabs: nat)
    ensures |Indent(true, tabs)| == 4 * tabs && forall i :: 0 <= i < 4 * tabs ==> Indent(true, tabs)[i] == ' '
    ensures Indent(false, tabs) == "" && NewLine(true) == "\n" && NewLine(false) == ""
    ensures Colon(true) == ": " && Colon(false) == ":"
  {
    BlanksAreSpaces(4 * tabs);
  }

  lemma {:induction false} BlanksAreSpaces(n: nat)
    ensures |Blanks(n)| == n && forall i :: 0 <= i < n ==> Blanks(n)[i] == ' '
  {
    if n > 0 {
      BlanksAreSpaces(n - 1);
    }
  }

  /** The number that a string of digits says, without any bound. */
  function Said(s: string): nat
    requires forall i :: 0 <= i < |s| ==> '0' <= s[i] <= '9'
  {
    if s == "" then 0 else 10 * Said(s[..|s| - 1]) + (s[|s| - 1] as nat - '0' as nat)
  }

  lemma {:induction false} DigitsSay(n: nat)
    ensures forall i :: 0 <= i < |Digits(n)| ==> '0' <= Digits(n)[i] <= '9'
    ensures Said(Digits(n)) == n
  {
    if n < 10 {
      assert Digits(n)[..0] == "";
    } else {
      DigitsSay(n / 10);
      assert Digits(n)[..|Digits(n)| - 1] == Digits(n / 10);
    }
  }

  /** A printed integer is a sign, if it is negative, and the digits of its magnitude modulo 2^32. */
  lemma IntegerWritten(n: int)
    ensures var s := FromInteger64(n); s != "" && (s[0] == '-' <==> n < 0)
    ensures var s := FromInteger64(n); var d := if n < 0 then s[1..] else s;
            && (forall i :: 0 <= i < |d| ==> '0' <= d[i] <= '9')
            && Said(d) == (if n < 0 then -n else n) % 0x1_0000_0000
  {
    var m := (if n < 0 then -n else n) % 0x1_0000_0000;
    DigitsSay(m);
    hide Digits;
    assert n < 0 ==> ("-" + Digits(m))[1..] == Digits(m);
  }

  function Further(human: bool, tabs: nat): string {
    if human then "\n" + Indent(true, tabs) else ""
  }

  /** Two elements: each on a line of its own one level further in, with a comma between them. */
  lemma ListWritten(human: bool, v: Json, w: Json, tabs: nat)
    ensures Print(human, Array([v, w]), tabs)
         == "[" + Further(human, tabs + 1) + Print(human, v, tabs + 1)
            + ("," + Further(human, tabs + 1) + Print(human, w, tabs + 1)) + Further(human, tabs) + "]"
    ensures Print(human, Array([]), tabs) == "[]" && Print(human, Object([]), tabs) == "{}"
  {
    ItemsOfTwo(human, v, w, tabs + 1);
    hide PrintItems;
    var first, second, line := Print(human, v, tabs + 1), Print(human, w, tabs + 1), NewLine(human);
    var items := PrintItems(human, [w], tabs + 1);
    hide Print;
    ArrayIs(human, v, w, tabs);
    LineAndIndent(human, "[", first, tabs + 1);
    LineAndIndent(human, ",", second, tabs + 1);
    LineAndIndent(human, "[" + Further(human, tabs + 1) + first + items, "]", tabs);
  }

  lemma ArrayIs(human: bool, v: Json, w: Json, tabs: nat)
    ensures Print(human, Array([v, w]), tabs)
         == "[" + NewLine(human) + (Indent(human, tabs + 1) + Print(human, v, tabs + 1))
            + PrintItems(human, [w], tabs + 1) + NewLine(human) + Indent(human, tabs) + "]"
  {
    hide Indent, NewLine, PrintItems;
    assert [v, w][1..] == [w];
  }

  lemma ItemsOfTwo(human: bool, v: Json, w: Json, tabs: nat)
    ensures PrintItems(human, [w], tabs) == "," + NewLine(human) + (Indent(human, tabs) + Print(human, w, tabs))
  {
    hide Indent, NewLine, Print;
    assert [w][1..] == [] && PrintItems(human, [], tabs) == "";
  }

  lemma LineAndIndent(human: bool, before: string, after: string, tabs: nat)
    ensures before + NewLine(human) + (Indent(human, tabs) + after) == before + Further(human, tabs) + after
    ensures before + NewLine(human) + Indent(human, tabs) + after == before + Further(human, tabs) + after
  {
    hide Blanks;
  }

  /** A member: the quoted name, a colon, in the human-readable form a space, and the value. */
  function Member(human: bool, e: Pair<Named>, tabs: nat): string {
    Quote(e.value.name) + ((if human then ": " else ":") + Print(human, e.value.value, tabs))
  }

  /** Two members, as two elements are. */
  lemma ObjectWritten(human: bool, d: Pair<Named>, e: Pair<Named>, tabs: nat)
    ensures Print(human, Object([d, e]), tabs)
         == "{" + Further(human, tabs + 1) + Member(human, d, tabs + 1)
            + ("," + Further(human, tabs + 1) + Member(human, e, tabs + 1)) + Further(human, tabs) + "}"
  {
    MemberIs(human, d, tabs + 1);
    MemberIs(human, e, tabs + 1);
    hide PrintMember, Member;
    MembersOfTwo(human, e, tabs + 1);
    hide PrintMembers;
    var first, second := Member(human, d, tabs + 1), Member(human, e, tabs + 1);
    var members := PrintMembers(human, [e], tabs + 1);
    ObjectIs(human, d, e, tabs);
    LineAndIndent(human, "{", first, tabs + 1);
    LineAndIndent(human, ",", second, tabs + 1);
    LineAndIndent(human, "{" + Further(human, tabs + 1) + first + members, "}", tabs);
  }

  lemma MemberIs(human: bool, e: Pair<Named>, tabs: nat)
    ensures PrintMember(human, e, tabs) == Indent(human, tabs) + Member(human, e, tabs)
  {
    hide Indent, Quote, Print;
    var a, b, c, d := Indent(human, tabs), Quote(e.value.name), Colon(human), Print(human, e.value.value, tabs);
    Associate(a + b, c, d);
    Associate(a, b, c + d);
  }

  lemma ObjectIs(human: bool, d: Pair<Named>, e: Pair<Named>, tabs: nat)
    ensures Print(human, Object([d, e]), tabs)
         == "{" + NewLine(human) + PrintMember(human, d, tabs + 1) + PrintMembers(human, [e], tabs + 1)
            + NewLine(human) + Indent(human, tabs) + "}"
  {
    hide Indent, NewLine, PrintMembers, PrintMember;
    assert [d, e][1..] == [e];
  }

  lemma MembersOfTwo(human: bool, e: Pair<Named>, tabs: nat)
    ensures PrintMembers(human, [e], tabs) == "," + NewLine(human) + PrintMember(human, e, tabs)
  {
    hide Indent, NewLine, PrintMember;
    assert [e][1..] == [] && PrintMembers(human, [], tabs) == "";
  }

  // A number at the very end, and keys whose hashes collide.

  lemma {:induction false} NumberAlone(d: string)
    requires forall i :: 0 <= i < |d| ==> IsDigit(d[i])
    ensures ParseNumber(d, false) == Failed
  {
    if d != "" {
      NumberAlone(d[1..]);
    }
  }

  /** With nothing after it, what was printed comes back exactly when it is not a number. */
  lemma AloneRoundTripIff(human: bool, v: Json)
    requires WellFormed(v)
    ensures ParseValue(Print(human, v, 0)) == Ok(v, "") <==> !v.Number?
  {
    if v.Number? {
      var t := FromInteger64(v.n);
      TokenShape(v.n);
      NumberAlone(t[1..]);
      SkipNothing(t);
    } else {
      ValueRoundTrip(human, v, 0, "");
      assert Print(human, v, 0) + "" == Print(human, v, 0);
    }
  }

  ghost predicate DistinctHashes(members: seq<Pair<Named>>) {
    forall i, j :: 0 <= i < j < |members| ==> Hash(members[i].value.name) != Hash(members[j].value.name)
  }

  lemma {:induction false} PutAllSize(acc: seq<Pair<Named>>, members: seq<Pair<Named>>)
    requires Sorted(acc)
    ensures |PutAll(acc, members)| <= |acc| + |members|
    ensures |PutAll(acc, members)| == |acc| + |members| <==>
            DistinctHashes(members) && forall i :: 0 <= i < |members| ==> !HasHash(acc, Hash(members[i].value.name))
    decreases members
  {
    if members != [] {
      var key, value, others := Const(members[0].value.name), members[0].value, members[1..];
      var acc' := Inserted(acc, key, value);
      InsertedSorted(acc, key, value);
      PutAllSize(acc', others);
      assert forall i :: 1 <= i < |members| ==> members[i] == others[i - 1];
      forall i | 0 <= i < |members|
        ensures HasHash(acc', Hash(members[i].value.name)) <==>
                Hash(members[i].value.name) == key.hash || HasHash(acc, Hash(members[i].value.name))
      {
        InsertedHashes(acc, key, value, Hash(members[i].value.name));
      }
      InsertedHashes(acc, key, value, key.hash);
    }
  }

  /** Reading an object's text keeps every member exactly when the names have different hashes. */
  lemma NoMemberLostIff(human: bool, members: seq<Pair<Named>>, tabs: nat, rest: string)
    requires MembersReadable(members)
    ensures var r := ParseValue(Print(human, Object(members), tabs) + rest);
            r.Ok? && r.value.Object? && r.rest == rest && (|r.value.members| == |members| <==> DistinctHashes(members))
  {
    ObjectParses(human, members, tabs, rest);
    PutAllSize([], members);
  }

  /** "Aa" and "BB" are different names with the same hash. */
  lemma CollidingNames()
    ensures "Aa" != "BB" && Hash("Aa") == Hash("BB")
  {
    assert "Aa"[..1] == "A" && "A"[..0] == "" && "BB"[..1] == "B" && "B"[..0] == "";
    assert Hash("A") == 65 && Hash("B") == 66;
    assert "Aa" != "BB" by { assert "Aa"[0] != "BB"[0]; }
  }
}
