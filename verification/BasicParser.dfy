/** include/mgpcl/BasicParser.h: one character at a time out of a refilled buffer, with an undo of one character. */
module BasicParser {
  import opened Chars
  import opened IoStream

  const BUFFER_SIZE := 8192

  datatype State = Parsing | ReachedEOF | CouldntRead

  predicate IsBlank(c: char) {
    c == '\r' || c == '\n' || c == '\t' || c == ' '
  }

  /** What the i-th read gives: bytes are unsigned, and past the end it is -1. */
  function ReadAt(s: string, i: nat): int {
    if i < |s| then s[i] as int else -1
  }

  /** The word is what the next reads give, its characters being signed: one from 128 on matches no byte, and 255,
      which is -1, matches the end. */
  predicate Follows(str: string, s: string, caseSensitive: bool) {
    forall i :: 0 <= i < |str| ==> SameCode(ReadAt(s, i), Signed(str[i]), caseSensitive)
  }

  lemma AsciiFollows(str: string, s: string, caseSensitive: bool)
    ensures Ascii(str) ==>
              (Follows(str, s, caseSensitive) <==> |str| <= |s| && Alike(str, s[..|str|], caseSensitive))
    ensures Ascii(str) && caseSensitive ==> (Follows(str, s, caseSensitive) <==> str <= s)
  {
    if Ascii(str) && Follows(str, s, caseSensitive) {
      assert |str| > |s| ==> SameCode(ReadAt(s, |s|), Signed(str[|s|]), caseSensitive);
    }
    if Ascii(str) && |str| <= |s| && Alike(str, s[..|str|], caseSensitive) {
      assert forall i :: 0 <= i < |str| ==> SameCode(str[i] as int, s[..|str|][i] as int, caseSensitive);
    }
  }


  function SkipBlanks(s: string): (r: string)
    ensures |r| <= |s|
    ensures r != "" ==> !IsBlank(r[0])
  {
    if s != "" && IsBlank(s[0]) then SkipBlanks(s[1..]) else s
  }

  lemma FirstSkipped(c: char, rest: string)
    ensures SkipBlanks([c] + rest) == if IsBlank(c) then SkipBlanks(rest) else [c] + rest
  {
    assert ([c] + rest)[1..] == rest;
  }

  lemma NoBlanks()
    ensures SkipBlanks("") == ""
  {
  }

  class BasicParser {
    const src: InputStream
    const buf: array<char>
    var bufLen: nat
    var bufPos: nat
    var state: State

    ghost predicate Valid()
      reads this
    {
      buf.Length == BUFFER_SIZE && bufPos <= bufLen <= BUFFER_SIZE
    }

    /** Everything not yet consumed: the rest of the buffer, then the rest of the source. */
    ghost function Remaining(): string
      reads this, src, buf
      requires Valid()
    {
      buf[bufPos..bufLen] + src.rest
    }

    /** The last character read can be put back, and is c. */
    ghost predicate CanUndo(c: char)
      reads this, buf
      requires Valid()
    {
      bufPos > 0 && buf[bufPos - 1] == c
    }

    constructor (s: InputStream)
      ensures Valid() && src == s && Remaining() == s.rest && fresh(buf)
    {
      src := s;
      buf := new char[BUFFER_SIZE];
      bufLen, bufPos, state := 0, 0, Parsing;
    }

    method Refill() returns (ok: bool)
      requires Valid() && bufPos >= bufLen
      modifies this, src, buf
      ensures Valid() && Remaining() == old(Remaining())
      ensures ok <==> old(Remaining()) != ""
      ensures ok ==> bufPos < bufLen
      ensures state == if ok then old(state) else if src.failsAtEnd then CouldntRead else ReachedEOF
    {
      var rd := src.Read(buf, 0, BUFFER_SIZE);
      if rd == 0 {
        state := ReachedEOF;
        return false;
      } else if rd < 0 {
        state := CouldntRead;
        return false;
      }
      bufLen := rd;
      bufPos := 0;
      ok := true;
    }

    /** The next byte, or -1 at the end of the input. */
    method NextCharRaw() returns (ic: int)
      requires Valid()
      modifies this, src, buf
      ensures Valid()
      ensures old(Remaining()) == "" ==> ic == -1 && Remaining() == ""
      ensures old(Remaining()) != "" ==>
                ic == old(Remaining())[0] as int && Remaining() == old(Remaining())[1..] && CanUndo(old(Remaining())[0])
    {
      if bufPos >= bufLen {
        var ok := Refill();
        if !ok {
          return -1;
        }
      }
      var ret := buf[bufPos];
      assert Remaining()[0] == ret;
      bufPos := bufPos + 1;
      ic := ret as int;
    }

    method NextNonBlankChar() returns (ret: int)
      requires Valid()
      modifies this, src, buf
      ensures Valid()
      ensures var s := SkipBlanks(old(Remaining()));
              if s == "" then ret == -1 && Remaining() == ""
              else ret == s[0] as int && Remaining() == s[1..] && CanUndo(s[0])
    {
      hide SkipBlanks;
      NoBlanks();
      if Remaining() != "" {
        assert [Remaining()[0]] + Remaining()[1..] == Remaining();
      }
      ret := NextCharRaw();
      while ret >= 0 && (ret == '\r' as int || ret == '\n' as int || ret == '\t' as int || ret == ' ' as int)
        invariant Valid()
        invariant if ret < 0 then ret == -1 && Remaining() == "" && SkipBlanks(old(Remaining())) == ""
                  else exists c: char ::
                    Just(ret, c) && CanUndo(c) && SkipBlanks(old(Remaining())) == SkipBlanks([c] + Remaining())
        decreases |Remaining()|, ret
      {
        ghost var c: char :| Just(ret, c) && CanUndo(c) &&
            SkipBlanks(old(Remaining())) == SkipBlanks([c] + Remaining());
        FirstSkipped(c, Remaining());
        ghost var was := Remaining();
        ret := NextCharRaw();
        if was != "" {
          assert [was[0]] + was[1..] == was;
          assert Just(ret, was[0]);
        }
      }
      if ret >= 0 {
        ghost var c: char :| Just(ret, c) && CanUndo(c) &&
            SkipBlanks(old(Remaining())) == SkipBlanks([c] + Remaining());
        FirstSkipped(c, Remaining());
        assert ([c] + Remaining())[1..] == Remaining();
      }
    }

    ghost predicate Just(ic: int, c: char) {
      ic == c as int
    }

    /** Consumes len characters that must be those of str; stops at the first that is not. */
    method Expect(str: string, caseSensitive: bool := true) returns (ok: bool)
      requires Valid()
      modifies this, src, buf
      ensures Valid()
      ensures ok <==> Follows(str, old(Remaining()), caseSensitive)
      ensures Ascii(str) ==>
                (ok <==> |str| <= |old(Remaining())| && Alike(str, old(Remaining())[..|str|], caseSensitive))
      ensures Ascii(str) && caseSensitive ==> (ok <==> str <= old(Remaining()))
      ensures ok && |str| <= |old(Remaining())| ==> Remaining() == old(Remaining())[|str|..]
      ensures |Remaining()| <= |old(Remaining())|
    {
      ghost var s := Remaining();
      AsciiFollows(str, s, caseSensitive);
      for i := 0 to |str|
        invariant Valid() && Remaining() == s[if i <= |s| then i else |s|..]
        invariant forall j :: 0 <= j < i ==> SameCode(ReadAt(s, j), Signed(str[j]), caseSensitive)
      {
        var ic := NextCharRaw();
        assert ic == ReadAt(s, i);
        if caseSensitive {
          if ic != Signed(str[i]) {
            return false;
          }
        } else {
          if LowerCode(ic) != LowerCode(Signed(str[i])) {
            return false;
          }
        }
      }
      ok := true;
    }

    /** Puts the last character back. The assertion of the source is the precondition. */
    method Undo(ghost c: char)
      requires Valid() && CanUndo(c)
      modifies this`bufPos
      ensures Valid() && Remaining() == [c] + old(Remaining())
    {
      bufPos := bufPos - 1;
    }
  }
}
