/** The two printers of src/JSON.cpp, over an output that may take any part of a write and may stop taking anything. */
module JsonPrinter {
  import opened FlatMap
  import opened JsonSyntax

  /** An output that takes `room` more bytes, in writes as short as it likes, and then fails. */
  class OutputStream {
    var written: string
    var room: nat

    constructor (n: nat)
      ensures written == "" && room == n
    {
      written, room := "", n;
    }

    method Write(data: string) returns (n: int)
      modifies this
      ensures data == "" || old(room) == 0 ==> n <= 0 && written == old(written) && room == old(room)
      ensures data != "" && old(room) > 0 ==>
                1 <= n <= |data| && n <= old(room) && written == old(written) + data[..n] && room == old(room) - n
    {
      if data == "" || room == 0 {
        return 0;
      }
      n :| 1 <= n <= |data| && n <= room;
      written := written + data[..n];
      room := room - n;
    }
  }

  /** All of text was written if ok; otherwise the part of it there was room for. */
  ghost predicate Emitted(was: string, wasRoom: nat, now: string, nowRoom: nat, text: string, ok: bool) {
    && (ok <==> |text| <= wasRoom)
    && (ok ==> now == was + text && nowRoom == wasRoom - |text|)
    && (!ok ==> now == was + text[..wasRoom] && nowRoom == 0)
  }

  lemma EmittedMore(was: string, wasRoom: nat, mid: string, midRoom: nat, now: string, nowRoom: nat, a: string,
                    b: string, ok: bool)
    requires Emitted(was, wasRoom, mid, midRoom, a, true) && Emitted(mid, midRoom, now, nowRoom, b, ok)
    ensures Emitted(was, wasRoom, now, nowRoom, a + b, ok)
  {
    if ok {
      assert was + (a + b) == (was + a) + b;
    } else {
      assert (a + b)[..wasRoom] == a + b[..midRoom];
      assert was + (a + b)[..wasRoom] == (was + a) + b[..midRoom];
    }
  }

  lemma EmittedFails(was: string, wasRoom: nat, now: string, nowRoom: nat, a: string, b: string)
    requires Emitted(was, wasRoom, now, nowRoom, a, false)
    ensures Emitted(was, wasRoom, now, nowRoom, a + b, false)
  {
    assert (a + b)[..wasRoom] == a[..wasRoom];
  }

  /** `IO::writeFully`: keeps writing until everything is out. A single character is one write. */
  method WriteStr(out: OutputStream, str: string) returns (ok: bool)
    modifies out
    ensures Emitted(old(out.written), old(out.room), out.written, out.room, str, ok)
  {
    var i := 0;
    while i < |str|
      invariant 0 <= i <= |str| && i <= old(out.room)
      invariant out.written == old(out.written) + str[..i] && out.room == old(out.room) - i
    {
      ghost var before := i;
      var rd := out.Write(str[i..]);
      if rd <= 0 {
        return false;
      }
      assert str[..i] + str[i..][..rd] == str[..i + rd];
      i := i + rd;
    }
    ok := true;
  }

  /** Writes b after a: what has been written so far and the status travel along. */
  method Then(out: OutputStream, ghost was: string, ghost wasRoom: nat, ghost a: string, sofar: bool, b: string)
    returns (ok: bool)
    requires Emitted(was, wasRoom, out.written, out.room, a, sofar)
    modifies out
    ensures Emitted(was, wasRoom, out.written, out.room, a + b, ok)
  {
    if !sofar {
      EmittedFails(was, wasRoom, out.written, out.room, a, b);
      return false;
    }
    ghost var mid, midRoom := out.written, out.room;
    ok := WriteStr(out, b);
    EmittedMore(was, wasRoom, mid, midRoom, out.written, out.room, a, b, ok);
  }

  method SerializeStr(out: OutputStream, str: string) returns (ok: bool)
    modifies out
    ensures Emitted(old(out.written), old(out.room), out.written, out.room, Quote(str), ok)
  {
    ghost var was, wasRoom := out.written, out.room;
    ok := WriteStr(out, "\"");
    ghost var done := "\"";
    for i := 0 to |str|
      invariant Emitted(was, wasRoom, out.written, out.room, done, ok)
      invariant done + EscapeAll(str[i..]) + "\"" == Quote(str)
    {
      var c := str[i];
      assert str[i..][1..] == str[i + 1..];
      assert done + EscapeAll(str[i..]) == (done + Escape(c)) + EscapeAll(str[i + 1..]);
      var text;
      if c == '\\' {
        text := "\\\\";
      } else if c == '\t' {
        text := "\\t";
      } else if c == '\r' {
        text := "\\r";
      } else if c == '\n' {
        text := "\\n";
      } else if c == 8 as char {
        text := "\\b";
      } else if c == 12 as char {
        text := "\\f";
      } else if c == '\"' {
        text := "\\\"";
      } else {
        text := [c];
      }
      ok := Then(out, was, wasRoom, done, ok, text);
      done := done + text;
    }
    assert str[|str|..] == "" && done + "" + "\"" == done + "\"";
    ok := Then(out, was, wasRoom, done, ok, "\"");
  }

  method WriteTabs(out: OutputStream, tabs: nat) returns (ok: bool)
    modifies out
    ensures Emitted(old(out.written), old(out.room), out.written, out.room, Indent(true, tabs), ok)
  {
    ghost var was, wasRoom := out.written, out.room;
    ghost var done := "";
    ok := WriteStr(out, "");
    for i := 0 to 4 * tabs
      invariant Emitted(was, wasRoom, out.written, out.room, done, ok)
      invariant done + Blanks(4 * tabs - i) == Blanks(4 * tabs)
    {
      assert done + Blanks(4 * tabs - i) == (done + " ") + Blanks(4 * tabs - i - 1);
      ok := Then(out, was, wasRoom, done, ok, " ");
      done := done + " ";
    }
    assert done + "" == done;
  }

  method ThenStr(out: OutputStream, ghost was: string, ghost wasRoom: nat, ghost a: string, sofar: bool, str: string)
    returns (ok: bool)
    requires Emitted(was, wasRoom, out.written, out.room, a, sofar)
    modifies out
    ensures Emitted(was, wasRoom, out.written, out.room, a + Quote(str), ok)
  {
    if !sofar {
      EmittedFails(was, wasRoom, out.written, out.room, a, Quote(str));
      return false;
    }
    ghost var mid, midRoom := out.written, out.room;
    ok := SerializeStr(out, str);
    EmittedMore(was, wasRoom, mid, midRoom, out.written, out.room, a, Quote(str), ok);
  }

  method ThenTabs(out: OutputStream, ghost was: string, ghost wasRoom: nat, ghost a: string, sofar: bool, human: bool,
                  tabs: nat)
    returns (ok: bool)
    requires Emitted(was, wasRoom, out.written, out.room, a, sofar)
    modifies out
    ensures Emitted(was, wasRoom, out.written, out.room, a + Indent(human, tabs), ok)
  {
    if !sofar || !human {
      assert a + "" == a;
      if !sofar {
        EmittedFails(was, wasRoom, out.written, out.room, a, Indent(human, tabs));
      }
      return sofar;
    }
    ghost var mid, midRoom := out.written, out.room;
    ok := WriteTabs(out, tabs);
    EmittedMore(was, wasRoom, mid, midRoom, out.written, out.room, a, Indent(human, tabs), ok);
  }

  method ThenValue(out: OutputStream, ghost was: string, ghost wasRoom: nat, ghost a: string, sofar: bool, human: bool,
                   v: Json, tabs: nat)
    returns (ok: bool)
    requires Emitted(was, wasRoom, out.written, out.room, a, sofar)
    modifies out
    ensures Emitted(was, wasRoom, out.written, out.room, a + Print(human, v, tabs), ok)
    decreases v, 2
  {
    if !sofar {
      EmittedFails(was, wasRoom, out.written, out.room, a, Print(human, v, tabs));
      return false;
    }
    ghost var mid, midRoom := out.written, out.room;
    ok := Serialize(out, human, v, tabs);
    EmittedMore(was, wasRoom, mid, midRoom, out.written, out.room, a, Print(human, v, tabs), ok);
  }

  /** What is still to be written of the items from the i-th on. */
  function ItemsFrom(human: bool, items: seq<Json>, tabs: nat, i: nat): string
    requires items != [] && i <= |items|
  {
    if i == 0 then PrintItem(human, items[0], tabs) + PrintItems(human, items[1..], tabs)
    else PrintItems(human, items[i..], tabs)
  }

  function Comma(human: bool, i: nat): string {
    if i > 0 then "," + NewLine(human) else ""
  }

  /** The text of item i, with the comma that may come before it. */
  function ItemText(human: bool, items: seq<Json>, tabs: nat, i: nat): string
    requires i < |items|
  {
    Comma(human, i) + Indent(human, tabs) + Print(human, items[i], tabs)
  }

  lemma ItemsStep(human: bool, items: seq<Json>, tabs: nat, i: nat)
    requires i < |items|
    ensures ItemsFrom(human, items, tabs, i) == ItemText(human, items, tabs, i) + ItemsFrom(human, items, tabs, i + 1)
  {
    hide Print, Indent;
    assert items[i..][1..] == items[i + 1..] && items[i..][0] == items[i];
    var indent, value, others := Indent(human, tabs), Print(human, items[i], tabs),
        PrintItems(human, items[i + 1..], tabs);
    assert PrintItem(human, items[i], tabs) == indent + value;
    hide PrintItem;
    if i == 0 {
      assert "" + indent + value == indent + value;
    } else {
      assert ItemsFrom(human, items, tabs, i) == "," + NewLine(human) + (indent + value) + others;
      assert "," + NewLine(human) + (indent + value) == "," + NewLine(human) + indent + value;
    }
  }

  method SerializeItem(out: OutputStream, ghost was: string, ghost wasRoom: nat, ghost done: string, sofar: bool,
                       human: bool, items: seq<Json>, tabs: nat, i: nat) returns (ok: bool)
    requires i < |items| && Emitted(was, wasRoom, out.written, out.room, done, sofar)
    modifies out
    ensures Emitted(was, wasRoom, out.written, out.room, done + ItemText(human, items, tabs, i), ok)
    decreases items, 0
  {
    hide Print, Indent, Emitted;
    ok := Then(out, was, wasRoom, done, sofar, Comma(human, i));
    ok := ThenTabs(out, was, wasRoom, done + Comma(human, i), ok, human, tabs);
    ok := ThenValue(out, was, wasRoom, done + Comma(human, i) + Indent(human, tabs), ok, human, items[i], tabs);
    assert done + Comma(human, i) + Indent(human, tabs) + Print(human, items[i], tabs)
        == done + ItemText(human, items, tabs, i);
  }

  function Close(human: bool, tabs: nat, bracket: string): string {
    NewLine(human) + Indent(human, tabs) + bracket
  }

  method WriteClose(out: OutputStream, ghost was: string, ghost wasRoom: nat, ghost done: string, sofar: bool,
                    human: bool, tabs: nat, bracket: string) returns (ok: bool)
    requires Emitted(was, wasRoom, out.written, out.room, done, sofar)
    modifies out
    ensures Emitted(was, wasRoom, out.written, out.room, done + Close(human, tabs, bracket), ok)
  {
    hide Indent, Emitted;
    ok := Then(out, was, wasRoom, done, sofar, NewLine(human));
    ok := ThenTabs(out, was, wasRoom, done + NewLine(human), ok, human, tabs);
    ok := Then(out, was, wasRoom, done + NewLine(human) + Indent(human, tabs), ok, bracket);
    assert done + NewLine(human) + Indent(human, tabs) + bracket == done + Close(human, tabs, bracket);
  }

  lemma ArrayTotal(human: bool, items: seq<Json>, tabs: nat)
    requires items != []
    ensures Print(human, Array(items), tabs)
         == "[" + NewLine(human) + ItemsFrom(human, items, tabs + 1, 0) + Close(human, tabs, "]")
  {
    var first, others, nl, ind := PrintItem(human, items[0], tabs + 1), PrintItems(human, items[1..], tabs + 1),
        NewLine(human), Indent(human, tabs);
    assert Print(human, Array(items), tabs) == "[" + nl + first + others + nl + ind + "]";
    hide PrintItem, PrintItems, Print, Indent;
    assert "[" + nl + first + others + nl + ind + "]" == "[" + nl + (first + others) + (nl + ind + "]");
  }

  method SerializeArray(out: OutputStream, human: bool, items: seq<Json>, tabs: nat) returns (ok: bool)
    modifies out
    ensures Emitted(old(out.written), old(out.room), out.written, out.room, Print(human, Array(items), tabs), ok)
    decreases items, 1
  {
    if items == [] {
      ok := WriteStr(out, "[]");
      return;
    }
    ghost var was, wasRoom := out.written, out.room;
    hide Print, ItemsFrom, Indent, Emitted, Close, ItemText;
    ok := WriteStr(out, "[" + NewLine(human));
    for i := 0 to |items|
      invariant Emitted(was, wasRoom, out.written, out.room, ItemsUpTo(human, items, tabs + 1, i), ok)
    {
      ok := SerializeItem(out, was, wasRoom, ItemsUpTo(human, items, tabs + 1, i), ok, human, items, tabs + 1, i);
    }
    ok := WriteClose(out, was, wasRoom, ItemsUpTo(human, items, tabs + 1, |items|), ok, human, tabs, "]");
    ArrayTotal(human, items, tabs);
    ItemsAll(human, items, tabs + 1, |items|);
    ItemsEnd(human, items, tabs + 1);
  }

  lemma Shift(a: string, b: string, c: string)
    ensures a + (b + c) == (a + b) + c
  {
  }

  lemma EmptyAfter(a: string)
    ensures a + "" == a
  {
  }

  /** What has been written before item i. */
  ghost function ItemsUpTo(human: bool, items: seq<Json>, tabs: nat, i: nat): string
    requires i <= |items|
  {
    if i == 0 then "[" + NewLine(human) else ItemsUpTo(human, items, tabs, i - 1) + ItemText(human, items, tabs, i - 1)
  }

  lemma {:induction false} ItemsAll(human: bool, items: seq<Json>, tabs: nat, i: nat)
    requires items != [] && i <= |items|
    ensures ItemsUpTo(human, items, tabs, i) + ItemsFrom(human, items, tabs, i)
            == "[" + NewLine(human) + ItemsFrom(human, items, tabs, 0)
    ensures ItemsUpTo(human, items, tabs, i) + "" == ItemsUpTo(human, items, tabs, i)
  {
    hide Print, NewLine, ItemsFrom, ItemText;
    EmptyAfter(ItemsUpTo(human, items, tabs, i));
    if i > 0 {
      ItemsAll(human, items, tabs, i - 1);
      ItemsStep(human, items, tabs, i - 1);
      Shift(ItemsUpTo(human, items, tabs, i - 1), ItemText(human, items, tabs, i - 1),
          ItemsFrom(human, items, tabs, i));
    }
  }

  lemma ItemsEnd(human: bool, items: seq<Json>, tabs: nat)
    requires items != []
    ensures ItemsFrom(human, items, tabs, |items|) == ""
  {
  }

  function MembersFrom(human: bool, members: seq<Pair<Named>>, tabs: nat, i: nat): string
    requires members != [] && i <= |members|
  {
    if i == 0 then PrintMember(human, members[0], tabs) + PrintMembers(human, members[1..], tabs)
    else PrintMembers(human, members[i..], tabs)
  }

  function MemberText(human: bool, members: seq<Pair<Named>>, tabs: nat, i: nat): string
    requires i < |members|
  {
    Comma(human, i) + Indent(human, tabs) + Quote(members[i].value.name) + Colon(human)
    + Print(human, members[i].value.value, tabs)
  }

  lemma MembersStep(human: bool, members: seq<Pair<Named>>, tabs: nat, i: nat)
    requires i < |members|
    ensures MembersFrom(human, members, tabs, i)
            == MemberText(human, members, tabs, i) + MembersFrom(human, members, tabs, i + 1)
  {
    hide Print, Indent, Quote;
    assert members[i..][1..] == members[i + 1..] && members[i..][0] == members[i];
    var indent, name, value := Indent(human, tabs), Quote(members[i].value.name),
        Print(human, members[i].value.value, tabs);
    var others := PrintMembers(human, members[i + 1..], tabs);
    assert PrintMember(human, members[i], tabs) == indent + name + Colon(human) + value;
    hide PrintMember;
    var text := indent + name + Colon(human) + value;
    if i == 0 {
      assert "" + indent + name + Colon(human) + value == text;
    } else {
      assert MembersFrom(human, members, tabs, i) == "," + NewLine(human) + text + others;
      assert "," + NewLine(human) + text == "," + NewLine(human) + indent + name + Colon(human) + value;
    }
  }

  method SerializeMember(out: OutputStream, ghost was: string, ghost wasRoom: nat, ghost done: string, sofar: bool,
                         human: bool, members: seq<Pair<Named>>, tabs: nat, i: nat) returns (ok: bool)
    requires i < |members| && Emitted(was, wasRoom, out.written, out.room, done, sofar)
    modifies out
    ensures Emitted(was, wasRoom, out.written, out.room, done + MemberText(human, members, tabs, i), ok)
    decreases members, 0
  {
    hide Print, Indent, Emitted, Quote;
    ghost var c, t, n, k := Comma(human, i), Indent(human, tabs), Quote(members[i].value.name), Colon(human);
    ok := Then(out, was, wasRoom, done, sofar, Comma(human, i));
    ok := ThenTabs(out, was, wasRoom, done + c, ok, human, tabs);
    ok := ThenStr(out, was, wasRoom, done + c + t, ok, members[i].value.name);
    ok := Then(out, was, wasRoom, done + c + t + n, ok, Colon(human));
    ok := ThenMember(out, was, wasRoom, done + c + t + n + k, ok, human, members[i], tabs);
    assert done + c + t + n + k + Print(human, members[i].value.value, tabs)
        == done + MemberText(human, members, tabs, i);
  }

  lemma ObjectTotal(human: bool, members: seq<Pair<Named>>, tabs: nat)
    requires members != []
    ensures Print(human, Object(members), tabs)
         == "{" + NewLine(human) + MembersFrom(human, members, tabs + 1, 0) + Close(human, tabs, "}")
  {
    hide PrintMember, PrintMembers, Indent, NewLine;
    var first, others, nl, ind := PrintMember(human, members[0], tabs + 1), PrintMembers(human, members[1..], tabs + 1),
        NewLine(human), Indent(human, tabs);
    assert Print(human, Object(members), tabs) == "{" + nl + first + others + nl + ind + "}";
    CloseApart("{" + nl, first, others, nl, ind, "}");
  }

  lemma CloseApart(open: string, first: string, others: string, nl: string, ind: string, brace: string)
    ensures open + first + others + nl + ind + brace == open + (first + others) + (nl + ind + brace)
  {
  }

  lemma MembersEnd(human: bool, members: seq<Pair<Named>>, tabs: nat)
    requires members != []
    ensures MembersFrom(human, members, tabs, |members|) == ""
  {
  }

  method SerializeObject(out: OutputStream, human: bool, members: seq<Pair<Named>>, tabs: nat) returns (ok: bool)
    modifies out
    ensures Emitted(old(out.written), old(out.room), out.written, out.room, Print(human, Object(members), tabs), ok)
    decreases members, 1
  {
    if members == [] {
      ok := WriteStr(out, "{}");
      return;
    }
    ghost var was, wasRoom := out.written, out.room;
    hide Print, MembersFrom, Indent, Emitted, Close, MemberText;
    ok := WriteStr(out, "{" + NewLine(human));
    for i := 0 to |members|
      invariant Emitted(was, wasRoom, out.written, out.room, MembersUpTo(human, members, tabs + 1, i), ok)
    {
      ghost var sofar := MembersUpTo(human, members, tabs + 1, i);
      ok := SerializeMember(out, was, wasRoom, sofar, ok, human, members, tabs + 1, i);
    }
    ok := WriteClose(out, was, wasRoom, MembersUpTo(human, members, tabs + 1, |members|), ok, human, tabs, "}");
    ObjectTotal(human, members, tabs);
    MembersAll(human, members, tabs + 1, |members|);
    MembersEnd(human, members, tabs + 1);
  }

  /** What has been written before member i. */
  ghost function MembersUpTo(human: bool, members: seq<Pair<Named>>, tabs: nat, i: nat): string
    requires i <= |members|
  {
    if i == 0 then "{" + NewLine(human)
    else MembersUpTo(human, members, tabs, i - 1) + MemberText(human, members, tabs, i - 1)
  }

  lemma {:induction false} MembersAll(human: bool, members: seq<Pair<Named>>, tabs: nat, i: nat)
    requires members != [] && i <= |members|
    ensures MembersUpTo(human, members, tabs, i) + MembersFrom(human, members, tabs, i)
         == "{" + NewLine(human) + MembersFrom(human, members, tabs, 0)
    ensures MembersUpTo(human, members, tabs, i) + "" == MembersUpTo(human, members, tabs, i)
  {
    hide Print, NewLine, MembersFrom, MemberText;
    EmptyAfter(MembersUpTo(human, members, tabs, i));
    if i > 0 {
      MembersAll(human, members, tabs, i - 1);
      MembersStep(human, members, tabs, i - 1);
      Shift(MembersUpTo(human, members, tabs, i - 1), MemberText(human, members, tabs, i - 1),
          MembersFrom(human, members, tabs, i));
    }
  }

  method ThenMember(out: OutputStream, ghost was: string, ghost wasRoom: nat, ghost a: string, sofar: bool,
                    human: bool, m: Pair<Named>, tabs: nat)
    returns (ok: bool)
    requires Emitted(was, wasRoom, out.written, out.room, a, sofar)
    modifies out
    ensures Emitted(was, wasRoom, out.written, out.room, a + Print(human, m.value.value, tabs), ok)
    decreases m
  {
    ok := ThenValue(out, was, wasRoom, a, sofar, human, m.value.value, tabs);
  }

  /** `g_m_json_serializeCompact` and `g_m_json_serializeHumanReadable` in one: the second adds line breaks and tabs. */
  method Serialize(out: OutputStream, human: bool, v: Json, tabs: nat) returns (ok: bool)
    modifies out
    ensures Emitted(old(out.written), old(out.room), out.written, out.room, Print(human, v, tabs), ok)
    decreases v, 1
  {
    match v {
      case Boolean(b) => ok := WriteStr(out, if b then "true" else "false");
      case Number(n) => ok := WriteStr(out, FromInteger64(n));
      case Decimal(text) => ok := WriteStr(out, text);
      case String(s) => ok := SerializeStr(out, s);
      case Array(items) => ok := SerializeArray(out, human, items, tabs);
      case Object(members) => ok := SerializeObject(out, human, members, tabs);
      case Null => ok := WriteStr(out, "null");
    }
  }
}
