/** include/mgpcl/Packet.h: packets being written, packets being received, and finished ones. */
module Packet {
  import opened Framing
  import opened Words

  /** A finished packet: the bytes to send, or the payload received. `Invalid` is the null pointer. */
  datatype FPacket = Invalid | FPacket(bytes: Bytes)

  datatype SeekPos = Beginning | Relative | End

  function Place(buf: Bytes, at: nat, p: Bytes): (r: Bytes)
    requires at + |p| <= |buf|
    ensures |r| == |buf|
  {
    buf[..at] + p + buf[at + |p|..]
  }

  /** `mem::copy`. */
  method Copy(dst: array<Byte>, to: nat, src: Bytes)
    requires to + |src| <= dst.Length
    modifies dst
    ensures dst[..] == Place(old(dst[..]), to, src)
  {
    forall i | 0 <= i < |src| {
      dst[to + i] := src[i];
    }
  }

  /** `old` with `src` over it from `at` on, longer than before if it has to be. */
  function Overwritten(old': Bytes, at: nat, src: Bytes): Bytes
    requires at <= |old'|
  {
    old'[..at] + src + (if at + |src| < |old'| then old'[at + |src|..] else [])
  }

  /** Byte by byte: the new ones where they are, the others as before. */
  lemma OverwrittenAt(old': Bytes, at: nat, src: Bytes, k: nat)
    requires at <= |old'| && (k < |old'| || k < at + |src|)
    ensures k < |Overwritten(old', at, src)| && (at + |src| <= |old'| ==> |Overwritten(old', at, src)| == |old'|)
    ensures Overwritten(old', at, src)[k] == if at <= k < at + |src| then src[k - at] else old'[k]
  {
  }

  lemma PlaceAt(buf: Bytes, at: nat, p: Bytes, k: nat)
    requires at + |p| <= |buf| && k < |buf|
    ensures Place(buf, at, p)[k] == if at <= k < at + |p| then p[k - at] else buf[k]
  {
    var first, last := buf[..at], buf[at + |p|..];
    assert |first + p| == at + |p|;
    if k >= at + |p| {
      assert (first + p + last)[k] == last[k - at - |p|];
    } else {
      assert (first + p + last)[k] == (first + p)[k];
    }
  }

  /** What was not overwritten is as before. */
  lemma PlaceSlice(buf: Bytes, at: nat, p: Bytes, i: nat, j: nat)
    requires at + |p| <= |buf| && i <= j <= |buf| && (j <= at || at + |p| <= i)
    ensures Place(buf, at, p)[i..j] == buf[i..j]
  {
    hide Place;
    forall k | i <= k < j
      ensures Place(buf, at, p)[k] == buf[k]
    {
      PlaceAt(buf, at, p, k);
    }
  }

  lemma PlacePiece(buf: Bytes, at: nat, p: Bytes)
    requires at + |p| <= |buf|
    ensures Place(buf, at, p)[at..at + |p|] == p
  {
    hide Place;
    forall k | 0 <= k < |p|
      ensures Place(buf, at, p)[at + k] == p[k]
    {
      PlaceAt(buf, at, p, at + k);
    }
  }

  lemma Slice(s: Bytes, i: nat, n: nat, a: nat, b: nat)
    requires i <= n <= |s| && a <= b <= n - i
    ensures s[i..n][a..b] == s[i + a..i + b]
  {
    forall k | 0 <= k < b - a
      ensures s[i..n][a..b][k] == s[i + a..i + b][k]
    {
    }
  }

  lemma PayloadWritten(before: Bytes, oldLen: nat, at: nat, src: Bytes, len: nat)
    requires 4 <= oldLen <= |before| && 4 <= at && at + |src| <= |before|
    requires len == if at + |src| > oldLen then at + |src| else oldLen
    ensures var payload := Place(before, at, src)[4..len];
            && payload[at - 4..at - 4 + |src|] == src
            && (at <= oldLen ==> payload == Overwritten(before[4..oldLen], at - 4, src))
  {
    hide Place;
    var after, last := Place(before, at, src), at + |src|;
    PlacePiece(before, at, src);
    Slice(after, 4, len, at - 4, last - 4);
    if at <= oldLen {
      PlaceSlice(before, at, src, 4, at);
      PlaceSlice(before, at, src, last, len);
      Slice(before, 4, oldLen, 0, at - 4);
      Cut(after, 4, at, last, len);
      if last < oldLen {
        Slice(before, 4, oldLen, last - 4, oldLen - 4);
      }
    }
  }

  lemma Cut(s: Bytes, i: nat, j: nat, k: nat, n: nat)
    requires i <= j <= k <= n <= |s|
    ensures s[i..n] == s[i..j] + s[j..k] + s[k..n]
  {
  }

  /** `TPacket`: four bytes kept for the size, then the payload. */
  class Packet {
    var data: array?<Byte>
    var alloc: nat
    var len: nat
    var pos: nat

    ghost predicate Valid()
      reads this
    {
      data != null && data.Length == alloc && 4 <= len <= alloc
    }

    ghost function Payload(): Bytes
      reads this, data
      requires Valid()
    {
      data[4..len]
    }

    constructor (al: nat := 4)
      ensures Valid() && fresh(data) && Payload() == [] && pos == 0
    {
      data := new Byte[4 + al];
      alloc := 4 + al;
      len := 4;
      pos := 0;
    }

    method Grow(nsz: nat)
      requires Valid() && nsz > alloc
      modifies this`data, this`alloc
      ensures Valid() && fresh(data) && Payload() == old(Payload())
      ensures var half := old(alloc) + old(alloc) / 2; alloc == if half < nsz then nsz else half
    {
      alloc := alloc + alloc / 2;
      if alloc < nsz {
        alloc := nsz;
      }
      var bigger := new Byte[alloc];
      forall i | 0 <= i < len {
        bigger[i] := data[i];
      }
      assert bigger[4..len] == data[4..len];
      data := bigger;
    }

    /** Writing at or before the end; past it, the bytes skipped keep whatever the allocation held. */
    method Write(src: Bytes)
      requires Valid() && 4 + pos + |src| <= MAX_U32
      modifies this, data
      ensures Valid() && pos == old(pos) + |src| && (data == old(data) || fresh(data))
      ensures old(pos) <= |old(Payload())| ==> Payload() == Overwritten(old(Payload()), old(pos), src)
      ensures |Payload()| == if pos > |old(Payload())| then pos else |old(Payload())|
      ensures Payload()[old(pos)..pos] == src
    {
      hide Place, Overwritten;
      var at := pos + 4;
      var end := at + |src|;
      if end > alloc {
        Grow(end);
      }
      ghost var before, oldLen := data[..], len;
      assert before[4..oldLen] == old(Payload());
      Copy(data, at, src);
      if end > len {
        len := end;
      }
      pos := pos + |src|;
      PayloadWritten(before, oldLen, at, src, len);
      assert Payload() == data[..][4..len];
    }

    /** Fails exactly when it would move before the start. */
    method Seek(amount: int, sp: SeekPos) returns (ok: bool)
      requires Valid() && (sp.Beginning? ==> amount >= 0)
      modifies this`pos
      ensures var base := match sp case Beginning => 0 case Relative => old(pos) case End => len - 4;
              ok == (base + amount >= 0) && pos == if ok then base + amount else old(pos)
    {
      match sp {
        case Beginning =>
          pos := amount;
        case Relative =>
          if amount < 0 {
            if -amount > pos {
              return false;
            }
            pos := pos - (-amount);
          } else {
            pos := pos + amount;
          }
        case End =>
          if amount < 0 {
            if -amount > len - 4 {
              return false;
            }
            pos := len - 4 - (-amount);
          } else {
            pos := len - 4 + amount;
          }
      }
      ok := true;
    }

    /** What goes on the wire is the frame of the payload; the packet gives its buffer away. */
    method Finalize() returns (p: FPacket)
      requires Valid() && len <= MAX_U32
      modifies this`data, data
      ensures data == null && p == FPacket(Frame(old(Payload())))
    {
      var word := StoreWord(SwapBytes(len));
      SwapIsBigEndian(len);
      ghost var payload := data[4..len];
      data[0], data[1], data[2], data[3] := word[0], word[1], word[2], word[3];
      assert data[..4] == word && data[..len] == data[..4] + data[4..len] && data[4..len] == payload;
      p := FPacket(data[..len]);
      data := null;
    }
  }

  // Putting a received payload together.

  function Concat(pieces: seq<Bytes>): Bytes {
    if pieces == [] then [] else Concat(pieces[..|pieces| - 1]) + pieces[|pieces| - 1]
  }

  /** Where `fill` puts a piece: the code copies to the start of the buffer; `AtPosition` is behind the others. */
  datatype FillRule = AtStart | AtPosition

  /** A buffer that held `init`, after these pieces. */
  function Assembled(rule: FillRule, init: Bytes, pieces: seq<Bytes>): (r: Bytes)
    requires |Concat(pieces)| <= |init|
    ensures |r| == |init|
  {
    if pieces == [] then init
    else
      var earlier := pieces[..|pieces| - 1];
      Place(Assembled(rule, init, earlier), if rule.AtStart? then 0 else |Concat(earlier)|, pieces[|pieces| - 1])
  }

  lemma ConcatAppend(pieces: seq<Bytes>, p: Bytes)
    ensures Concat(pieces + [p]) == Concat(pieces) + p
  {
    assert (pieces + [p])[..|pieces|] == pieces;
  }

  lemma AssembledAppend(rule: FillRule, init: Bytes, pieces: seq<Bytes>, p: Bytes)
    requires |Concat(pieces)| + |p| <= |init|
    ensures |Concat(pieces + [p])| <= |init|
    ensures Assembled(rule, init, pieces + [p])
         == Place(Assembled(rule, init, pieces), if rule.AtStart? then 0 else |Concat(pieces)|, p)
  {
    ConcatAppend(pieces, p);
    assert (pieces + [p])[..|pieces|] == pieces;
  }

  /** Pieces put one after the other give the payload. */
  lemma {:induction false} AtPositionKeeps(init: Bytes, pieces: seq<Bytes>)
    requires |Concat(pieces)| <= |init|
    ensures Assembled(AtPosition, init, pieces) == Concat(pieces) + init[|Concat(pieces)|..]
  {
    if pieces != [] {
      AtPositionKeeps(init, pieces[..|pieces| - 1]);
    }
  }

  /** So does a single piece put at the start. */
  lemma OnePieceKeeps(rule: FillRule, init: Bytes, p: Bytes)
    requires |init| == |p|
    ensures Concat([p]) == p && Assembled(rule, init, [p]) == p
  {
    assert [p] == [] + [p];
    ConcatAppend([], p);
    AssembledAppend(rule, init, [], p);
  }

  predicate LastReaching(pieces: seq<Bytes>, i: nat, k: int) {
    0 <= k < |pieces| && i < |pieces[k]| && forall j :: k < j < |pieces| ==> |pieces[j]| <= i
  }

  /** At the start, each byte is that of the last piece long enough to reach it. */
  lemma {:induction false} AtStartByte(init: Bytes, pieces: seq<Bytes>, i: nat, k: int)
    requires |Concat(pieces)| <= |init| && i < |init|
    requires LastReaching(pieces, i, k)
    ensures Assembled(AtStart, init, pieces)[i] == pieces[k][i]
  {
    if k < |pieces| - 1 {
      AtStartByte(init, pieces[..|pieces| - 1], i, k);
    }
  }

  /** A byte no piece reaches is never written. */
  lemma {:induction false} AtStartUnwritten(init: Bytes, pieces: seq<Bytes>, i: nat)
    requires |Concat(pieces)| <= |init| && i < |init|
    requires forall k :: 0 <= k < |pieces| ==> |pieces[k]| <= i
    ensures Assembled(AtStart, init, pieces)[i] == init[i]
  {
    if pieces != [] {
      AtStartUnwritten(init, pieces[..|pieces| - 1], i);
    }
  }

  predicate CutAs(pieces: seq<Bytes>, sizes: seq<nat>) {
    |pieces| == |sizes| && forall i :: 0 <= i < |sizes| ==> |pieces[i]| == sizes[i]
  }

  /** Every payload cut this way comes out as it was sent. */
  ghost predicate Faithful(rule: FillRule, sizes: seq<nat>) {
    forall init, pieces :: CutAs(pieces, sizes) && |init| == |Concat(pieces)| ==>
        Assembled(rule, init, pieces) == Concat(pieces)
  }

  /** As the code copies, payloads survive exactly when they arrive in one piece. */
  lemma FaithfulIff(rule: FillRule, sizes: seq<nat>)
    requires forall i :: 0 <= i < |sizes| ==> sizes[i] > 0
    ensures Faithful(rule, sizes) <==> rule == AtPosition || |sizes| <= 1
  {
    if rule == AtPosition || |sizes| <= 1 {
      forall init, pieces | CutAs(pieces, sizes) && |init| == |Concat(pieces)|
        ensures Assembled(rule, init, pieces) == Concat(pieces)
      {
        if rule == AtPosition {
          AtPositionKeeps(init, pieces);
        } else if |pieces| == 1 {
          assert pieces == [pieces[0]];
          assert Concat([pieces[0]]) == pieces[0] by {
            ConcatAppend([], pieces[0]);
            assert [] + [pieces[0]] == [pieces[0]];
          }
          OnePieceKeeps(rule, init, pieces[0]);
        }
      }
    } else {
      Spoiled(sizes);
    }
  }

  /** Zeroes everywhere but in the last piece: its ones end up in front. */
  lemma Spoiled(sizes: seq<nat>)
    requires |sizes| >= 2 && forall i :: 0 <= i < |sizes| ==> sizes[i] > 0
    ensures !Faithful(AtStart, sizes)
  {
    var last := |sizes| - 1;
    var pieces := seq(|sizes|, i requires 0 <= i < |sizes| => seq(sizes[i], j => if i == last then 1 as Byte else 0));
    assert CutAs(pieces, sizes);
    var init: Bytes := Concat(pieces);
    FirstByte(pieces);
    assert LastReaching(pieces, 0, last);
    AtStartByte(init, pieces, 0, last);
    assert Assembled(AtStart, init, pieces)[0] == 1 && Concat(pieces)[0] == 0;
  }

  lemma {:induction false} FirstByte(pieces: seq<Bytes>)
    requires pieces != [] && pieces[0] != []
    ensures |Concat(pieces)| > 0 && Concat(pieces)[0] == pieces[0][0]
  {
    if |pieces| > 1 {
      FirstByte(pieces[..|pieces| - 1]);
    }
  }

  /** `TPrePacket`: a payload of known size being received. */
  class PrePacket {
    const rule: FillRule
    var buf: array?<Byte>
    var size: nat
    var pos: nat
    ghost var init: Bytes
    ghost var pieces: seq<Bytes>

    ghost predicate Valid()
      reads this, buf
    {
      if buf == null then size == 0 && pos == 0 && pieces == []
      else
        && buf.Length == size && |init| == size
        && pos == |Concat(pieces)| <= size
        && buf[..] == Assembled(rule, init, pieces)
    }

    constructor (rule: FillRule)
      ensures Valid() && buf == null && this.rule == rule
    {
      this.rule := rule;
      buf, size, pos, init, pieces := null, 0, 0, [], [];
    }

    method SetSize(sz: nat)
      requires Valid() && buf == null
      modifies this
      ensures Valid() && buf != null && fresh(buf) && size == sz && pieces == [] && pos == 0
    {
      buf := new Byte[sz];
      size := sz;
      init := buf[..];
    }

    /** Takes what is still missing and no more. */
    method Fill(src: array<Byte>, at: nat, sz: nat) returns (added: nat)
      requires Valid() && buf != null && src != buf && at + sz <= src.Length
      modifies this, buf
      ensures Valid() && buf == old(buf) && size == old(size) && init == old(init)
      ensures added == if sz < size - old(pos) then sz else size - old(pos)
      ensures pos == old(pos) + added
      ensures pieces == if old(pos) == size then old(pieces) else old(pieces) + [src[at..at + added]]
    {
      hide Concat, Assembled, Place;
      if pos >= size {
        return 0;
      }
      added := sz;
      if added > size - pos {
        added := size - pos;
      }
      var to := if rule.AtStart? then 0 else pos;
      ghost var piece := src[at..at + added];
      AssembledAppend(rule, init, pieces, piece);
      ConcatAppend(pieces, piece);
      Copy(buf, to, src[at..at + added]);
      pos := pos + added;
      pieces := pieces + [piece];
    }

    predicate IsReady()
      reads this
    {
      pos >= size
    }

    method Finalize() returns (p: FPacket)
      requires Valid() && buf != null && size > 0 && IsReady()
      modifies this
      ensures Valid() && buf == null
      ensures |old(Concat(pieces))| == |old(init)|
      ensures p == FPacket(Assembled(rule, old(init), old(pieces)))
    {
      p := FPacket(buf[..]);
      buf, size, pos, pieces := null, 0, 0, [];
    }
  }
}
