/** `g_m_json_parseString` and `g_m_json_parse` of src/JSON.cpp: recursive descent over the buffered parser.
    Whatever the chunks of the source, the result is that of `ParseValue` on its whole text. */
module JsonParser {
  import opened BasicParser
  import opened Chars
  import opened FlatMap
  import opened JsonSyntax

  datatype Status = Parsed | Error | AssertionFailed

  method ParseStringToken(p: BasicParser, begin: char) returns (ok: bool, val: string)
    requires p.Valid()
    modifies p, p.src, p.buf
    ensures p.Valid()
    ensures match ParseString(old(p.Remaining()), begin, false)
            case Ok(v, rest) => ok && val == v && p.Remaining() == rest
            case _ => !ok
  {
    var escaped := false;
    val := "";
    PrependMore("", "", ParseString(p.Remaining(), begin, false));
    while true
      invariant p.Valid()
      invariant ParseString(old(p.Remaining()), begin, false)
                == Prepend(val, ParseString(p.Remaining(), begin, escaped))
      decreases |p.Remaining()|
    {
      ghost var was, done := p.Remaining(), val;
      var ic := p.NextCharRaw();
      if ic < 0 {
        return false, val;
      }
      var c := ic as char;
      if c == '\n' || c == '\r' {
        return false, val;
      }
      if escaped {
        if c == '\\' {
          val := val + "\\";
        } else if c == 't' {
          val := val + "\t";
        } else if c == 'r' {
          val := val + "\r";
        } else if c == 'n' {
          val := val + "\n";
        } else if c == 'b' {
          val := val + [8 as char];
        } else if c == 'f' {
          val := val + [12 as char];
        } else if c == '\'' {
          val := val + "\'";
        } else if c == '\"' {
          val := val + "\"";
        } else {
          val := val + ['\\', c];
        }
        escaped := false;
        assert val == done + Unescape(c);
        PrependMore(done, Unescape(c), ParseString(p.Remaining(), begin, false));
      } else if c == '\\' {
        escaped := true;
      } else if c == begin {
        break;
      } else {
        val := val + [c];
        PrependMore(done, [c], ParseString(p.Remaining(), begin, false));
      }
    }
    ok := true;
  }

  lemma PrependMore(a: string, b: string, r: Outcome<string>)
    ensures Prepend(a, Prepend(b, r)) == Prepend(a + b, r)
    ensures Prepend("", r) == r
  {
    if r.Ok? {
      assert a + (b + r.value) == (a + b) + r.value;
      assert "" + r.value == r.value;
    }
  }

  /** An unquoted key, from its second character on. */
  method ParseKeyToken(p: BasicParser, first: char) returns (ok: bool, key: string)
    requires p.Valid() && IsKeyChar(first)
    modifies p, p.src, p.buf
    ensures p.Valid()
    ensures match Prepend([first], ParseKey(old(p.Remaining())))
            case Ok(v, rest) => ok && key == v && p.Remaining() == rest
            case _ => !ok
  {
    var ic := first as int;
    key := "";
    ghost var rest := p.Remaining();
    ghost var c := first;
    assert key + [c] == [first];
    while 'A' as int <= ic <= 'Z' as int || 'a' as int <= ic <= 'z' as int || ic == '_' as int
      invariant p.Valid() && 0 <= ic == c as int
      invariant p.Remaining() == rest
      invariant IsKeyChar(c) ==> Prepend([first], ParseKey(old(p.Remaining()))) == Prepend(key + [c], ParseKey(rest))
      invariant !IsKeyChar(c) ==> Prepend([first], ParseKey(old(p.Remaining()))) == Ok(key, [c] + rest) && p.CanUndo(c)
      decreases |rest|, IsKeyChar(c)
    {
      key := key + [ic as char];
      ghost var was := p.Remaining();
      ic := p.NextCharRaw();
      if ic < 0 {
        return false, key;
      }
      c := was[0];
      rest := p.Remaining();
      assert was == [c] + rest;
      PrependMore(key, [c], ParseKey(rest));
      assert key + "" == key;
    }
    p.Undo(c);
    ok := true;
  }

  /** A quoted or an unquoted key that starts with c. */
  method ParseNameToken(p: BasicParser, c: char) returns (ok: bool, key: string)
    requires p.Valid()
    modifies p, p.src, p.buf
    ensures p.Valid()
    ensures match ParseName([c] + old(p.Remaining()))
            case Ok(v, rest) => ok && key == v && p.Remaining() == rest
            case _ => !ok
  {
    assert ([c] + p.Remaining())[1..] == p.Remaining();
    ok, key := false, "";
    if c == '\'' || c == '\"' {
      ok, key := ParseStringToken(p, c);
    } else if IsKeyChar(c) {
      ok, key := ParseKeyToken(p, c);
    }
  }

  method ParseNumberToken(p: BasicParser, first: char) returns (ok: bool, hasDot: bool, tmp: string)
    requires p.Valid()
    modifies p, p.src, p.buf
    ensures p.Valid()
    ensures match Prepend([first], ParseNumber(old(p.Remaining()), first == '.'))
            case Ok(v, rest) => ok && tmp == v && p.Remaining() == rest && (hasDot <==> '.' in tmp)
            case _ => !ok
  {
    hasDot := first == '.';
    tmp := [first];
    while true
      invariant p.Valid() && (hasDot <==> '.' in tmp)
      invariant Prepend([first], ParseNumber(old(p.Remaining()), first == '.'))
                == Prepend(tmp, ParseNumber(p.Remaining(), hasDot))
      decreases |p.Remaining()|
    {
      ghost var was, done, dotted := p.Remaining(), tmp, hasDot;
      var ic := p.NextCharRaw();
      if ic < 0 {
        return false, hasDot, tmp;
      }
      var c := ic as char;
      if c == '.' {
        if hasDot {
          return false, hasDot, tmp;
        }
        hasDot := true;
        tmp := tmp + [c];
        PrependMore(done, ".", ParseNumber(p.Remaining(), true));
      } else if '0' <= c <= '9' {
        tmp := tmp + [c];
        PrependMore(done, [c], ParseNumber(p.Remaining(), hasDot));
      } else {
        p.Undo(c);
        assert p.Remaining() == was;
        assert tmp + "" == tmp;
        break;
      }
    }
    ok := true;
  }

  lemma WordsAscii()
    ensures Ascii("rue") && Ascii("alse") && Ascii("ull")
  {
  }

  method ParseJson(p: BasicParser) returns (status: Status, dst: Json)
    requires p.Valid()
    modifies p, p.src, p.buf
    ensures p.Valid()
    ensures match ParseValue(old(p.Remaining()))
            case Ok(v, rest) => status == Parsed && dst == v && p.Remaining() == rest
            case Failed => status == Error
            case Aborted => status == AssertionFailed
    decreases |p.Remaining()|, 0
  {
    hide Follows, Alike, Ascii, ParseMembers, ParseElements, ParseNumber, ParseString, SkipBlanks, ToInteger;
    WordsAscii();
    dst := Null;
    ghost var t := SkipBlanks(p.Remaining());
    var ic := p.NextNonBlankChar();
    if ic < 0 {
      return Error, dst;
    }
    var c := ic as char;
    if c == '{' {
      status, dst := ParseObject(p);
    } else if c == '[' {
      status, dst := ParseArray(p);
    } else if c == '\'' || c == '\"' {
      var ok, val := ParseStringToken(p, c);
      if !ok {
        return Error, dst;
      }
      status, dst := Parsed, String(val);
    } else if '0' <= c <= '9' || c == '.' || c == '-' {
      var ok, hasDot, tmp := ParseNumberToken(p, c);
      if !ok {
        return Error, dst;
      }
      status, dst := Parsed, if hasDot then Decimal(tmp) else Number(ToInteger(tmp));
    } else if c == 't' {
      var ok := p.Expect("rue");
      status, dst := if ok then Parsed else Error, Boolean(true);
    } else if c == 'f' {
      var ok := p.Expect("alse");
      status, dst := if ok then Parsed else Error, Boolean(false);
    } else if c == 'n' {
      var ok := p.Expect("ull");
      status, dst := if ok then Parsed else Error, Null;
    } else {
      status := Error;
    }
  }

  method ParseArray(p: BasicParser) returns (status: Status, dst: Json)
    requires p.Valid()
    modifies p, p.src, p.buf
    ensures p.Valid()
    ensures match ParseElements(old(p.Remaining()), true, [])
            case Ok(v, rest) => status == Parsed && dst == v && p.Remaining() == rest
            case Failed => status == Error
            case Aborted => status == AssertionFailed
    decreases |p.Remaining()|, 2
  {
    hide ParseValue;
    var first := true;
    var items: seq<Json> := [];
    dst := Null;
    while true
      invariant p.Valid() && |p.Remaining()| <= |old(p.Remaining())|
      invariant ParseElements(old(p.Remaining()), true, []) == ParseElements(p.Remaining(), first, items)
      decreases |p.Remaining()|
    {
      ghost var t := SkipBlanks(p.Remaining());
      var ic := p.NextNonBlankChar();
      if ic < 0 {
        return Error, dst;
      }
      if ic == ']' as int {
        break;
      }
      if first {
        first := false;
      } else {
        if ic != ',' as int {
          return Error, dst;
        }
        t := SkipBlanks(p.Remaining());
        ic := p.NextNonBlankChar();
        if ic < 0 {
          return Error, dst;
        }
        if ic == ']' as int {
          break;
        }
      }
      p.Undo(t[0]);
      assert p.Remaining() == t;
      var elem;
      status, elem := ParseJson(p);
      if status != Parsed {
        return;
      }
      items := items + [elem];
    }
    status, dst := Parsed, Array(items);
  }

  /** One member, from the first character c of its name on. */
  method ParseMemberOf(p: BasicParser, c: char) returns (status: Status, e: Named)
    requires p.Valid()
    modifies p, p.src, p.buf
    ensures p.Valid()
    ensures match ParseMember([c] + old(p.Remaining()))
            case Ok(v, rest) => status == Parsed && e == v && p.Remaining() == rest
            case Failed => status == Error
            case Aborted => status == AssertionFailed
    decreases |p.Remaining()|, 1
  {
    hide ParseValue, ParseName;
    e := Named("", Null);
    var ok, key := ParseNameToken(p, c);
    if !ok {
      return Error, e;
    }
    var ic := p.NextNonBlankChar();
    if ic < 0 || ic != ':' as int {
      return Error, e;
    }
    var elem;
    status, elem := ParseJson(p);
    if status != Parsed {
      return;
    }
    if key == "" {
      return AssertionFailed, e;
    }
    e := Named(key, elem);
  }

  method ParseObject(p: BasicParser) returns (status: Status, dst: Json)
    requires p.Valid()
    modifies p, p.src, p.buf
    ensures p.Valid()
    ensures match ParseMembers(old(p.Remaining()), true, [])
            case Ok(v, rest) => status == Parsed && dst == v && p.Remaining() == rest
            case Failed => status == Error
            case Aborted => status == AssertionFailed
    decreases |p.Remaining()|, 2
  {
    hide ParseMember, ParseMembers, Inserted, Sorted, SkipBlanks, IsBlank;
    var first := true;
    var members := new FlatMap<Named>();
    dst := Null;
    SortedEmpty();
    while true
      invariant p.Valid() && |p.Remaining()| <= |old(p.Remaining())|
      invariant Sorted(members.data)
      invariant ParseMembers(old(p.Remaining()), true, []) == ParseMembers(p.Remaining(), first, members.data)
      decreases |p.Remaining()|
    {
      ghost var t := SkipBlanks(p.Remaining());
      MembersNext(p.Remaining(), first, members.data);
      var ic := p.NextNonBlankChar();
      if ic < 0 {
        return Error, dst;
      }
      if ic == '}' as int {
        break;
      }
      if first {
        first := false;
      } else {
        if ic != ',' as int {
          return Error, dst;
        }
        t := SkipBlanks(p.Remaining());
        ic := p.NextNonBlankChar();
        if ic < 0 {
          return Error, dst;
        }
        if ic == '}' as int {
          break;
        }
      }
      assert [t[0]] + t[1..] == t;
      var e;
      status, e := ParseMemberOf(p, ic as char);
      if status != Parsed {
        return;
      }
      members.Put(Const(e.name), e);
    }
    status, dst := Parsed, Object(members.data);
  }

  function AfterMember(m: Outcome<Named>, acc: seq<Pair<Named>>): Outcome<Json> {
    match m
    case Ok(e, rest) => ParseMembers(rest, false, Inserted(acc, Const(e.name), e))
    case Failed => Failed
    case Aborted => Aborted
  }

  /** What comes next in an object. */
  lemma MembersNext(s: string, first: bool, acc: seq<Pair<Named>>)
    ensures SkipBlanks(s) == "" ==> ParseMembers(s, first, acc) == Failed
    ensures SkipBlanks(s) != "" ==>
              var t := SkipBlanks(s);
              var a := AfterComma(t, first);
              && (t[0] == '}' ==> ParseMembers(s, first, acc) == Ok(Object(acc), t[1..]))
              && (t[0] != '}' && !a.Ok? ==> ParseMembers(s, first, acc) == Failed)
              && (t[0] != '}' && a.Ok? ==>
                    ParseMembers(s, first, acc)
                    == if !first && a.value[0] == '}' then Ok(Object(acc), a.value[1..])
                       else AfterMember(ParseMember(a.value), acc))
  {
    hide ParseMember, Inserted, SkipBlanks, AfterComma;
  }

  lemma SortedEmpty()
    ensures Sorted<Named>([])
  {
  }
}
