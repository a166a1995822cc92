/** include/mgpcl/LineReader.h: lines out of a source that delivers as it likes, through a buffer of fixed size. */
module LineReader {
  import opened IoStream

  datatype LineEnding = CRLF | LFOnly | CROnly

  function Terminator(le: LineEnding): (t: string)
    ensures |t| == if le.CRLF? then 2 else 1
  {
    match le case CRLF => "\r\n" case LFOnly => "\n" case CROnly => "\r"
  }

  predicate EndsAt(le: LineEnding, s: string, i: nat) {
    i + |Terminator(le)| <= |s| && s[i..i + |Terminator(le)|] == Terminator(le)
  }

  /** Where the first terminator is, or -1. */
  function FirstEnd(le: LineEnding, s: string): (i: int)
    ensures i == -1 || 0 <= i <= |s| - |Terminator(le)|
  {
    if s == "" then -1
    else if EndsAt(le, s, 0) then 0
    else var i := FirstEnd(le, s[1..]); if i < 0 then -1 else i + 1
  }

  lemma {:induction false} FirstEndIs(le: LineEnding, s: string, i: nat)
    requires EndsAt(le, s, i) && forall j :: 0 <= j < i ==> !EndsAt(le, s, j)
    ensures FirstEnd(le, s) == i
  {
    if i > 0 {
      forall j | 0 <= j < i
        ensures EndsAt(le, s[1..], j) == EndsAt(le, s, j + 1)
      {
        EndsAtNext(le, s, j);
      }
      EndsAtNext(le, s, i - 1);
      FirstEndIs(le, s[1..], i - 1);
    }
  }

  lemma EndsAtNext(le: LineEnding, s: string, j: nat)
    requires s != ""
    ensures EndsAt(le, s[1..], j) == EndsAt(le, s, j + 1)
  {
    var n := |Terminator(le)|;
    if j + 1 + n <= |s| {
      assert s[1..][j..j + n] == s[j + 1..j + 1 + n];
    }
  }

  lemma {:induction false} FirstEndFound(le: LineEnding, s: string)
    ensures FirstEnd(le, s) >= 0 ==> EndsAt(le, s, FirstEnd(le, s))
  {
    if s != "" {
      FirstEndFound(le, s[1..]);
      if FirstEnd(le, s[1..]) >= 0 {
        EndsAtNext(le, s, FirstEnd(le, s[1..]));
      }
    }
  }

  /** Position `j` of the buffer starts no terminator, whatever comes after the buffer. */
  predicate Passed(le: LineEnding, s: string, j: nat) {
    && j < |s|
    && if le.CRLF? then s[j] != '\r' || (j + 1 < |s| && s[j + 1] != '\n') else s[j] != Terminator(le)[0]
  }

  lemma TerminatorStarts(le: LineEnding)
    ensures |Terminator(le)| == (if le.CRLF? then 2 else 1)
    ensures Terminator(le)[0] == if le.LFOnly? then '\n' else '\r'
  {
  }

  lemma EndsHere(le: LineEnding, s: string, i: nat)
    requires i < |s| && s[i] == Terminator(le)[0] && (le.CRLF? ==> i + 1 < |s| && s[i + 1] == '\n')
    ensures EndsAt(le, s, i)
  {
    if le.CRLF? {
      assert s[i..i + 2] == [s[i], s[i + 1]];
    } else {
      assert s[i..i + 1] == [s[i]];
    }
  }

  lemma PassedNoEnd(le: LineEnding, s: string, j: nat)
    requires Passed(le, s, j)
    ensures !EndsAt(le, s, j)
  {
    assert s + "" == s;
    PassedStays(le, s, "", j);
  }

  /** The terminator would run over the end. */
  lemma NoRoom(le: LineEnding, s: string, j: nat)
    requires j + |Terminator(le)| > |s|
    ensures !EndsAt(le, s, j)
  {
  }

  lemma PassedStays(le: LineEnding, s: string, t: string, j: nat)
    requires Passed(le, s, j)
    ensures Passed(le, s + t, j) && !EndsAt(le, s + t, j)
  {
    var n := |Terminator(le)|;
    assert j + n <= |s + t| ==>
        (s + t)[j..j + n][0] == (s + t)[j] && (le.CRLF? ==> (s + t)[j..j + n][1] == (s + t)[j + 1]);
  }

  lemma FitsInBuffer(le: LineEnding, s: string, t: string, i: nat)
    requires EndsAt(le, s + t, i) && i + |Terminator(le)| <= |s|
    ensures EndsAt(le, s, i)
  {
    var n := |Terminator(le)|;
    assert (s + t)[i..i + n] == s[i..i + n];
  }

  class LineReader {
    const src: InputStream
    const le: LineEnding
    const alloc: nat
    const buffer: array<char>
    var pos: nat
    var len: nat
    var line: string

    ghost predicate Valid()
      reads this, buffer
    {
      && 2 <= alloc == buffer.Length && pos <= len <= alloc
      && forall j :: 0 <= j < pos ==> Passed(le, buffer[..len], j)
    }

    /** What has not been returned yet. */
    ghost function Remaining(): string
      reads this, src, buffer
      requires Valid()
    {
      buffer[..len] + src.rest
    }

    constructor (src: InputStream, le: LineEnding, alloc: nat := 8192)
      requires alloc >= 2
      ensures Valid() && Remaining() == src.rest && fresh(buffer)
      ensures this.src == src && this.le == le && this.alloc == alloc
    {
      this.src, this.le, this.alloc := src, le, alloc;
      buffer := new char[alloc];
      pos, len, line := 0, 0, "";
    }

    method RefillBuffer() returns (ret: int)
      requires Valid()
      modifies this`len, src, buffer
      ensures Valid() && Remaining() == old(Remaining())
      ensures ret == if old(len) >= alloc then -1 else if old(src.rest) != "" then 1 else if src.failsAtEnd then -1
              else 0
      ensures ret == 1 ==> |src.rest| < |old(src.rest)|
      ensures ret != 1 ==> len == old(len) && src.rest == old(src.rest) && buffer[..len] == old(buffer[..len])
    {
      if len >= alloc {
        return -1;
      }
      ghost var before := buffer[..len];
      ret := src.Read(buffer, len, alloc - len);
      if ret <= 0 {
        return;
      }
      ghost var more := buffer[len..len + ret];
      len := len + ret;
      assert buffer[..len] == before + more;
      forall j | 0 <= j < pos
        ensures Passed(le, buffer[..len], j)
      {
        PassedStays(le, before, more, j);
      }
      ret := 1;
    }

    /** The scan of what is in the buffer; a carriage return at its end waits for what comes next. */
    method Scan() returns (found: bool)
      requires Valid()
      modifies this`pos
      ensures Valid()
      ensures found <==> EndsAt(le, buffer[..len], pos)
      ensures !found ==> forall j :: 0 <= j < len ==> !EndsAt(le, buffer[..len], j)
    {
      hide EndsAt, Terminator;
      TerminatorStarts(le);
      var match_ := if le.LFOnly? then '\n' else '\r';
      ghost var s := buffer[..len];
      found := false;
      while pos < len && !found
        invariant Valid() && s == buffer[..len]
        invariant found ==> EndsAt(le, s, pos)
        decreases len - pos, !found
      {
        if buffer[pos] == match_ {
          if le.CRLF? {
            if pos + 1 < len {
              if buffer[pos + 1] == '\n' {
                EndsHere(le, s, pos);
                found := true;
              } else {
                pos := pos + 1;
              }
            } else {
              break;
            }
          } else {
            EndsHere(le, s, pos);
            found := true;
          }
        } else {
          pos := pos + 1;
        }
      }
      if pos == len {
        NoRoom(le, s, pos);
      }
      forall j | 0 <= j < len && (j < pos || !found)
        ensures !EndsAt(le, s, j)
      {
        if j < pos {
          PassedNoEnd(le, s, j);
        } else {
          NoRoom(le, s, j);
        }
      }
    }

    /** 1 with the next line, if it ends within the buffer; otherwise -1 for a line too long or an error, 0 at the
        end. */
    method Next() returns (ret: int)
      requires Valid()
      modifies this, src, buffer
      ensures Valid()
      ensures var s, n := old(Remaining()), |Terminator(le)|; var i := FirstEnd(le, s);
              if i >= 0 && i + n <= alloc then ret == 1 && line == s[..i] && Remaining() == s[i + n..]
              else ret == (if |s| >= alloc || src.failsAtEnd then -1 else 0) && Remaining() == s && line == old(line)
    {
      hide Passed, EndsAt, FirstEnd, Terminator;
      var found := Scan();
      while !found
        invariant Valid() && Remaining() == old(Remaining()) && line == old(line)
        invariant found <==> EndsAt(le, buffer[..len], pos)
        invariant !found ==> forall j :: 0 <= j < len ==> !EndsAt(le, buffer[..len], j)
        decreases |src.rest|, !found
      {
        ret := RefillBuffer();
        if ret <= 0 {
          NothingFits(le, buffer[..len], src.rest);
          return;
        }
        found := Scan();
      }
      TakeLine();
      ret := 1;
    }

    /** The line ends at `pos`; the rest moves to the front. */
    method TakeLine()
      requires Valid() && EndsAt(le, buffer[..len], pos)
      modifies this`pos, this`len, this`line, buffer
      ensures Valid()
      ensures var s, n := old(Remaining()), |Terminator(le)|; var i := FirstEnd(le, s);
              0 <= i && i + n <= alloc && line == s[..i] && Remaining() == s[i + n..]
    {
      ghost var in_, i := buffer[..len], pos;
      FoundHere(le, in_, src.rest, i);
      hide Passed, EndsAt, FirstEnd;
      var leLen := if le.CRLF? then 2 else 1;
      line := buffer[..pos];
      assert line == in_[..i];
      TakenApart(in_, src.rest, i, i + leLen);
      Drop(pos + leLen);
      pos := 0;
    }

    method Drop(n: nat)
      requires n <= len <= buffer.Length
      modifies this`len, buffer
      ensures len == old(len) - n && buffer[..len] == old(buffer[..len])[n..]
    {
      len := len - n;
      if len > 0 {
        forall k | 0 <= k < len {
          buffer[k] := buffer[n + k];
        }
      }
    }
  }

  lemma TakenApart(s: string, t: string, i: nat, j: nat)
    requires i <= j <= |s|
    ensures s[..i] == (s + t)[..i] && s[j..] + t == (s + t)[j..]
  {
  }

  lemma NothingFits(le: LineEnding, s: string, t: string)
    requires forall j :: 0 <= j < |s| ==> !EndsAt(le, s, j)
    ensures FirstEnd(le, s + t) < 0 || FirstEnd(le, s + t) + |Terminator(le)| > |s|
  {
    hide FirstEnd, EndsAt;
    FirstEndFound(le, s + t);
    var i := FirstEnd(le, s + t);
    if i >= 0 && i + |Terminator(le)| <= |s| {
      FitsInBuffer(le, s, t, i);
    }
  }

  lemma FoundHere(le: LineEnding, s: string, t: string, i: nat)
    requires EndsAt(le, s, i) && forall j :: 0 <= j < i ==> Passed(le, s, j)
    ensures FirstEnd(le, s + t) == i && i + |Terminator(le)| <= |s|
  {
    var n := |Terminator(le)|;
    assert (s + t)[i..i + n] == s[i..i + n];
    forall j | 0 <= j < i
      ensures !EndsAt(le, s + t, j)
    {
      PassedStays(le, s, t, j);
    }
    FirstEndIs(le, s + t, i);
  }

  // A whole stream.

  /** The lines that fit, and what is left after them. */
  function Lines(le: LineEnding, s: string, alloc: nat): (r: (seq<string>, string))
    decreases |s|
  {
    var i, n := FirstEnd(le, s), |Terminator(le)|;
    if i < 0 || i + n > alloc then ([], s)
    else var (more, left) := Lines(le, s[i + n..], alloc); ([s[..i]] + more, left)
  }

  /** Calls `next` until it has no more lines: they depend on the stream alone. */
  method ReadLines(r: LineReader) returns (lines: seq<string>, ret: int)
    requires r.Valid()
    modifies r, r.src, r.buffer
    ensures r.Valid() && (lines, r.Remaining()) == Lines(r.le, old(r.Remaining()), r.alloc)
    ensures ret == if |r.Remaining()| >= r.alloc || r.src.failsAtEnd then -1 else 0
  {
    hide FirstEnd, Terminator;
    lines := [];
    ret := 1;
    ghost var left := r.Remaining();
    assert [] + Lines(r.le, left, r.alloc).0 == Lines(r.le, left, r.alloc).0;
    while ret == 1
      invariant r.Valid() && r.Remaining() == left
      invariant Lines(r.le, old(r.Remaining()), r.alloc)
                == (lines + Lines(r.le, left, r.alloc).0, Lines(r.le, left, r.alloc).1)
      invariant ret != 1 ==> Lines(r.le, left, r.alloc) == ([], left)
      invariant ret != 1 ==> ret == if |left| >= r.alloc || r.src.failsAtEnd then -1 else 0
      decreases |left|, ret == 1
    {
      ret := r.Next();
      if ret == 1 {
        NextLine(r.le, left, r.alloc, lines);
        lines := lines + [r.line];
      }
      left := r.Remaining();
    }
    assert lines + [] == lines;
  }

  lemma NextLine(le: LineEnding, s: string, alloc: nat, before: seq<string>)
    requires FirstEnd(le, s) >= 0 && FirstEnd(le, s) + |Terminator(le)| <= alloc
    ensures var i, n := FirstEnd(le, s), |Terminator(le)|;
            && Lines(le, s, alloc).1 == Lines(le, s[i + n..], alloc).1
            && before + Lines(le, s, alloc).0 == (before + [s[..i]]) + Lines(le, s[i + n..], alloc).0
            && |s[i + n..]| < |s|
  {
  }

  function Joined(le: LineEnding, lines: seq<string>): string {
    if lines == [] then "" else lines[0] + Terminator(le) + Joined(le, lines[1..])
  }

  /** A line that fits and holds no terminator. */
  predicate Plain(le: LineEnding, line: string, alloc: nat) {
    |line| + |Terminator(le)| <= alloc && FirstEnd(le, line) < 0
  }

  /** Lines written out one after the other are the lines read back. */
  lemma {:induction false} LinesOfJoined(le: LineEnding, lines: seq<string>, tail: string, alloc: nat)
    requires forall i :: 0 <= i < |lines| ==> Plain(le, lines[i], alloc)
    requires FirstEnd(le, tail) < 0
    ensures Lines(le, Joined(le, lines) + tail, alloc) == (lines, tail)
    decreases lines
  {
    if lines == [] {
      assert "" + tail == tail;
    } else {
      hide Lines, FirstEnd, Terminator, Joined, Plain;
      var more := lines[1..];
      JoinedFirst(le, lines);
      Regroup(lines[0] + Terminator(le), Joined(le, more), tail);
      LinesOfJoined(le, more, tail, alloc);
      OneLine(le, lines[0], Joined(le, more) + tail, alloc);
      assert [lines[0]] + more == lines;
    }
  }

  lemma JoinedFirst(le: LineEnding, lines: seq<string>)
    requires lines != []
    ensures Joined(le, lines) == lines[0] + Terminator(le) + Joined(le, lines[1..])
  {
  }

  lemma Regroup(a: string, b: string, c: string)
    ensures a + b + c == a + (b + c)
  {
  }

  lemma OneLine(le: LineEnding, line: string, rest: string, alloc: nat)
    requires Plain(le, line, alloc)
    ensures Lines(le, line + Terminator(le) + rest, alloc)
            == ([line] + Lines(le, rest, alloc).0, Lines(le, rest, alloc).1)
  {
    hide FirstEnd, Terminator;
    var s := line + Terminator(le) + rest;
    EndOfLine(le, line, rest);
    assert s[..|line|] == line && s[|line| + |Terminator(le)|..] == rest;
  }

  lemma {:induction false} NoEndWithin(le: LineEnding, s: string, j: nat)
    requires FirstEnd(le, s) < 0
    ensures !EndsAt(le, s, j)
  {
    if s != "" && j > 0 {
      NoEndWithin(le, s[1..], j - 1);
      EndsAtNext(le, s, j - 1);
    }
  }

  lemma EndOfLine(le: LineEnding, line: string, rest: string)
    requires FirstEnd(le, line) < 0
    ensures FirstEnd(le, line + Terminator(le) + rest) == |line|
  {
    hide FirstEnd;
    var s, n := line + Terminator(le) + rest, |Terminator(le)|;
    assert s[|line|..|line| + n] == Terminator(le);
    forall j | 0 <= j < |line|
      ensures !EndsAt(le, s, j)
    {
      NoEndWithin(le, line, j);
      assert s[j..j + n][0] == line[j];
      assert le.CRLF? ==> s[j..j + n][1] == if j + 1 < |line| then line[j + 1] else Terminator(le)[0];
      assert j + n <= |line| ==> line[j..j + n] == s[j..j + n];
    }
    FirstEndIs(le, s, |line|);
  }

  lemma NoEnd(le: LineEnding, s: string)
    requires forall j :: 0 <= j < |s| ==> !EndsAt(le, s, j)
    ensures FirstEnd(le, s) < 0
  {
    FirstEndFound(le, s);
  }

  /** The three endings in characters. After a carriage return and a line feed, a line feed, or a carriage return, as
      the reader was told, a line ends; and nowhere else. */
  lemma LineRead(line: string, rest: string, alloc: nat)
    ensures |line| + 2 <= alloc && (forall j :: 0 < j < |line| ==> line[j - 1] != '\r' || line[j] != '\n') ==>
            Lines(CRLF, line + "\r\n" + rest, alloc)
            == ([line] + Lines(CRLF, rest, alloc).0, Lines(CRLF, rest, alloc).1)
    ensures |line| + 1 <= alloc && '\n' !in line ==>
            Lines(LFOnly, line + "\n" + rest, alloc)
            == ([line] + Lines(LFOnly, rest, alloc).0, Lines(LFOnly, rest, alloc).1)
    ensures |line| + 1 <= alloc && '\r' !in line ==>
            Lines(CROnly, line + "\r" + rest, alloc)
            == ([line] + Lines(CROnly, rest, alloc).0, Lines(CROnly, rest, alloc).1)
  {
    hide Lines;
    if |line| + 2 <= alloc && (forall j :: 0 < j < |line| ==> line[j - 1] != '\r' || line[j] != '\n') {
      forall j | 0 <= j < |line|
        ensures !EndsAt(CRLF, line, j)
      {
        assert j + 2 <= |line| ==> line[j..j + 2] == [line[j], line[j + 1]];
        assert j + 2 <= |line| ==> line[j + 1 - 1] != '\r' || line[j + 1] != '\n';
      }
      NoEnd(CRLF, line);
      OneLine(CRLF, line, rest, alloc);
    }
    if |line| + 1 <= alloc && '\n' !in line {
      forall j | 0 <= j < |line|
        ensures !EndsAt(LFOnly, line, j)
      {
        assert line[j..j + 1] == [line[j]];
      }
      NoEnd(LFOnly, line);
      OneLine(LFOnly, line, rest, alloc);
    }
    if |line| + 1 <= alloc && '\r' !in line {
      forall j | 0 <= j < |line|
        ensures !EndsAt(CROnly, line, j)
      {
        assert line[j..j + 1] == [line[j]];
      }
      NoEnd(CROnly, line);
      OneLine(CROnly, line, rest, alloc);
    }
  }
}
