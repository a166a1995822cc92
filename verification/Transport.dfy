/** The two halves of a connection, as `TCPServerClient` and `TCPClient` both hold them. */
module Transport {
  import opened Framing
  import opened Packet
  import opened Queue
  import opened Words

  const BUFFER_SIZE := 8192
  const BACKLOG := 128

  /** A payload taken off the stream: the pieces it came in, and what its buffer held before. */
  datatype Taken = Taken(init: Bytes, pieces: seq<Bytes>)

  predicate Whole(taken: seq<Taken>) {
    forall i :: 0 <= i < |taken| ==> |Concat(taken[i].pieces)| == |taken[i].init|
  }

  function Payloads(taken: seq<Taken>): (r: seq<Bytes>)
    ensures |r| == |taken|
  {
    seq(|taken|, i requires 0 <= i < |taken| => Concat(taken[i].pieces))
  }

  function Packets(rule: FillRule, taken: seq<Taken>): (r: seq<FPacket>)
    requires Whole(taken)
    ensures |r| == |taken|
  {
    seq(|taken|, i requires 0 <= i < |taken| => FPacket(Assembled(rule, taken[i].init, taken[i].pieces)))
  }

  function Lost(room: seq<bool>): nat {
    if room == [] then 0 else Lost(room[..|room| - 1]) + if room[|room| - 1] then 0 else 1
  }

  /** Which of the next `more` packets a queue of this size has room for, if none is taken out. */
  function Admitted(size: nat, more: nat): (r: seq<bool>)
    ensures |r| == more
  {
    seq(more, i requires 0 <= i < more => size + i < BACKLOG)
  }

  /** Only packets that the queue had room for at their turn were added. */
  predicate Admits(room: seq<bool>, size: nat, room': seq<bool>, size': nat) {
    && size <= BACKLOG && |room| <= |room'|
    && room' == room + Admitted(size, |room'| - |room|)
    && size' == if size + (|room'| - |room|) < BACKLOG then size + (|room'| - |room|) else BACKLOG
  }

  lemma AdmitsNone(room: seq<bool>, size: nat)
    requires size <= BACKLOG
    ensures Admits(room, size, room, size)
  {
  }

  lemma AdmitsOne(room: seq<bool>, size: nat)
    requires size <= BACKLOG
    ensures Admits(room, size, room + [size < BACKLOG], if size < BACKLOG then size + 1 else size)
  {
  }

  lemma AdmitsTwice(room: seq<bool>, size: nat, room': seq<bool>, size': nat, room'': seq<bool>, size'': nat)
    requires Admits(room, size, room', size') && Admits(room', size', room'', size'')
    ensures Admits(room, size, room'', size'')
  {
    var first, second := |room'| - |room|, |room''| - |room'|;
    assert Admitted(size, first) + Admitted(size', second) == Admitted(size, first + second);
    assert room + (Admitted(size, first) + Admitted(size', second)) == room'';
  }

  /** As many packets are lost as the queue would have been too long by. */
  lemma {:induction false} AdmitsLost(room: seq<bool>, size: nat, more: nat)
    requires size <= BACKLOG
    ensures Lost(room + Admitted(size, more))
            == Lost(room) + if size + more <= BACKLOG then 0 else size + more - BACKLOG
    decreases more
  {
    if more == 0 {
      assert room + Admitted(size, 0) == room;
    } else {
      AdmitsLost(room, size, more - 1);
      var r := room + Admitted(size, more);
      assert r[..|r| - 1] == room + Admitted(size, more - 1);
    }
  }

  /** Those of s that found room. */
  function Kept<T>(s: seq<T>, room: seq<bool>): (r: seq<T>)
    requires |s| == |room|
    ensures |r| + Lost(room) == |s|
  {
    if s == [] then []
    else
      var last := |s| - 1;
      Kept(s[..last], room[..last]) + if room[last] then [s[last]] else []
  }

  lemma {:induction false} AllKept<T>(s: seq<T>, room: seq<bool>)
    requires |s| == |room| && Lost(room) == 0
    ensures Kept(s, room) == s
  {
    if s != [] {
      var last := |s| - 1;
      AllKept(s[..last], room[..last]);
      assert s == s[..last] + [s[last]];
    }
  }

  lemma KeptAppend<T>(s: seq<T>, room: seq<bool>, x: T, ok: bool)
    requires |s| == |room|
    ensures Kept(s + [x], room + [ok]) == Kept(s, room) + if ok then [x] else []
    ensures Lost(room + [ok]) == Lost(room) + if ok then 0 else 1
  {
    var last := |s|;
    assert (s + [x])[..last] == s && (room + [ok])[..last] == room;
  }

  /** What found room comes after all that did before it. */
  lemma {:induction false} KeptPlace<T>(s: seq<T>, room: seq<bool>, i: nat)
    requires |s| == |room| && i < |s| && room[i]
    ensures Lost(room[..i]) <= i
    ensures var k := i - Lost(room[..i]); k < |Kept(s, room)| && Kept(s, room)[k] == s[i]
    decreases s
  {
    var last := |s| - 1;
    assert |Kept(s[..i], room[..i])| + Lost(room[..i]) == i;
    if i < last {
      KeptPlace(s[..last], room[..last], i);
      assert room[..last][..i] == room[..i];
    }
  }

  /** What was whole when it was taken is whole among those kept. */
  lemma {:induction false} KeptWhole(taken: seq<Taken>, room: seq<bool>)
    requires |taken| == |room| && Whole(taken)
    ensures Whole(Kept(taken, room)) && Payloads(Kept(taken, room)) == Kept(Payloads(taken), room)
  {
    if taken != [] {
      var last := |taken| - 1;
      var before, ok := taken[..last], room[..last];
      WholeParts(taken);
      KeptWhole(before, ok);
      hide Concat, Kept, Whole, Payloads;
      KeptAppend(before, ok, taken[last], room[last]);
      KeptAppend(Payloads(before), ok, Payloads(taken)[last], room[last]);
      assert taken == before + [taken[last]] && room == ok + [room[last]];
      if room[last] {
        OneMoreWhole(Kept(before, ok), taken[last]);
      } else {
        assert Kept(before, ok) + [] == Kept(before, ok);
      }
    }
  }

  lemma WholeParts(taken: seq<Taken>)
    requires taken != [] && Whole(taken)
    ensures var last := |taken| - 1;
            && Whole(taken[..last]) && |Concat(taken[last].pieces)| == |taken[last].init|
            && Payloads(taken)[last] == Concat(taken[last].pieces)
            && Payloads(taken) == Payloads(taken[..last]) + [Payloads(taken)[last]]
  {
    hide Concat;
  }

  lemma OneMoreWhole(taken: seq<Taken>, t: Taken)
    requires Whole(taken) && |Concat(t.pieces)| == |t.init|
    ensures Whole(taken + [t]) && Payloads(taken + [t]) == Payloads(taken) + [Concat(t.pieces)]
  {
    hide Concat;
  }

  /** The packets delivered and those waiting in the queue are, in order, those of the payloads that found room. */
  predicate Accounted(rule: FillRule, taken: seq<Taken>, room: seq<bool>, delivered: seq<FPacket>,
                      waiting: seq<FPacket>) {
    && Whole(taken) && |room| == |taken| && Whole(Kept(taken, room))
    && delivered + waiting == Packets(rule, Kept(taken, room))
  }

  lemma PayloadsAppend(rule: FillRule, taken: seq<Taken>, t: Taken)
    requires Whole(taken) && |Concat(t.pieces)| == |t.init|
    ensures Whole(taken + [t]) && Payloads(taken + [t]) == Payloads(taken) + [Concat(t.pieces)]
    ensures Packets(rule, taken + [t]) == Packets(rule, taken) + [FPacket(Assembled(rule, t.init, t.pieces))]
  {
  }

  lemma AccountedMore(rule: FillRule, taken: seq<Taken>, room: seq<bool>, delivered: seq<FPacket>,
                      waiting: seq<FPacket>,
                      t: Taken, p: FPacket, ok: bool)
    requires Accounted(rule, taken, room, delivered, waiting)
    requires |Concat(t.pieces)| == |t.init| && p == FPacket(Assembled(rule, t.init, t.pieces))
    ensures Accounted(rule, taken + [t], room + [ok], delivered, if ok then waiting + [p] else waiting)
  {
    hide Concat, Assembled, Payloads, Packets, Whole, Kept, Lost;
    PayloadsAppend(rule, taken, t);
    KeptAppend(taken, room, t, ok);
    if ok {
      PayloadsAppend(rule, Kept(taken, room), t);
      assert delivered + (waiting + [p]) == (delivered + waiting) + [p];
    } else {
      assert Kept(taken, room) + [] == Kept(taken, room);
    }
  }

  lemma TakenMore(rule: FillRule, taken: seq<Taken>, room: seq<bool>, delivered: seq<FPacket>, waiting: seq<FPacket>,
                  t: Taken, ok: bool)
    requires Accounted(rule, taken, room, delivered, waiting) && |Concat(t.pieces)| == |t.init|
    ensures Payloads(taken + [t]) == Payloads(taken) + [Concat(t.pieces)]
    ensures Lost(room + [ok]) == Lost(room) + if ok then 0 else 1
  {
    hide Concat, Assembled, Payloads, Packets, Whole;
    PayloadsAppend(rule, taken, t);
    KeptAppend(taken, room, t, ok);
  }

  lemma NothingFed()
    ensures FeedAll(START, []) == (START, [])
  {
  }

  class Receiver {
    const rBuf: array<Byte>
    var rPos: nat
    const rPkt: PrePacket
    const rQueue: Queue<FPacket>
    // The bytes dealt with, the payloads they held, the packets handed to the user, and for each payload
    // whether the queue had room for its packet.
    ghost var consumed: Bytes
    ghost var taken: seq<Taken>
    ghost var delivered: seq<FPacket>
    ghost var room: seq<bool>

    ghost function Repr(): set<object>
      reads this, rPkt, rQueue
    {
      {this, rBuf, rPkt, rQueue, rQueue.data, rQueue.buffer} + (if rPkt.buf == null then {} else {rPkt.buf as object})
    }

    ghost predicate Apart()
      reads this, rPkt, rQueue
    {
      && rBuf.Length == BUFFER_SIZE && rPkt.buf != rBuf
      && rQueue.data as object !in {rBuf as object, rPkt.buf} && rQueue.buffer as object !in {rBuf as object, rPkt.buf}
    }

    /** Where the decoder stands, whatever is left in the receive buffer. */
    ghost function Busy(): Rx
      reads this, rPkt
    {
      if rPkt.buf == null then START else Payload(rPkt.size, Concat(rPkt.pieces))
    }

    ghost predicate Core()
      reads this, Repr()
    {
      && Apart() && rPkt.Valid() && rQueue.Valid() && rQueue.backlog == BACKLOG
      && (rPkt.buf != null ==> rPkt.pos < rPkt.size)
      && FeedAll(START, consumed) == (Busy(), Payloads(taken))
      && Accounted(rPkt.rule, taken, room, delivered, rQueue.Contents())
    }

    /** At most three bytes wait for a length prefix to be complete, and none while a payload is incomplete. */
    ghost predicate Valid()
      reads this, Repr()
    {
      Core() && rPos < 4 && (rPkt.buf != null ==> rPos == 0)
    }

    /** Everything received so far. */
    ghost function Stream(): Bytes
      reads this, rBuf
      requires rPos <= rBuf.Length
    {
      consumed + rBuf[..rPos]
    }

    /** The bytes dealt with and those of the buffer that are still to be dealt with. */
    ghost function Ahead(at: nat, avail: nat): Bytes
      reads this, rBuf
      requires at + avail <= rBuf.Length
    {
      consumed + rBuf[at..at + avail]
    }

    constructor (rule: FillRule)
      ensures Valid() && fresh(Repr()) && Stream() == [] && taken == [] && delivered == [] && rPkt.rule == rule
      ensures room == [] && rQueue.Contents() == []
    {
      hide Queue.Contents, Queue.Valid, Concat, FeedAll;
      NothingFed();
      rBuf := new Byte[BUFFER_SIZE];
      rPos := 0;
      rPkt := new PrePacket(rule);
      rQueue := new Queue<FPacket>(BACKLOG);
      consumed, taken, delivered, room := [], [], [], [];
    }

    /** What both places in `readyRead` that fill the packet do. */
    method FillFrom(at: nat, avail: nat) returns (added: nat)
      requires Core() && rPkt.buf != null && 0 < avail && at + avail <= BUFFER_SIZE
      modifies Repr() - {rBuf}
      ensures Core() && fresh(Repr() - old(Repr())) && rPos == old(rPos) && delivered == old(delivered)
      ensures Admits(old(room), old(rQueue.size), room, rQueue.size)
      ensures 0 < added <= avail && (rPkt.buf != null ==> added == avail)
      ensures Ahead(at + added, avail - added) == old(Ahead(at, avail))
    {
      hide FeedAll, Concat, Assembled, Payloads, Packets, Accounted, Lost, Admits, Queue.Contents, Queue.Valid;
      RoomForNone();
      ghost var pieces, size := rPkt.pieces, rPkt.size;
      added := rPkt.Fill(rBuf, at, avail);
      ghost var piece := rBuf[at..at + added];
      CutAt(consumed, rBuf[at..at + avail], added);
      assert rBuf[at..at + avail][..added] == piece;
      assert rBuf[at..at + avail][added..] == rBuf[at + added..at + avail];
      ConcatAppend(pieces, piece);
      FeedAllSplit(START, consumed, piece);
      FeedPayload(size, Concat(pieces), piece);
      consumed := consumed + piece;
      assert Payloads(taken) + [] == Payloads(taken);
      if rPkt.IsReady() {
        Deliver();
      }
    }

    method Deliver()
      requires Apart() && rPkt.Valid() && rPkt.buf != null && rPkt.size > 0 && rPkt.IsReady()
      requires rQueue.Valid() && rQueue.backlog == BACKLOG
      requires Accounted(rPkt.rule, taken, room, delivered, rQueue.Contents())
      requires FeedAll(START, consumed) == (START, Payloads(taken) + [Concat(rPkt.pieces)])
      modifies Repr() - {rBuf}
      ensures Core() && rPkt.buf == null && fresh(Repr() - old(Repr()))
      ensures rPos == old(rPos) && delivered == old(delivered) && consumed == old(consumed)
      ensures room == old(room) + [|old(rQueue.Contents())| < BACKLOG]
      ensures Admits(old(room), old(rQueue.size), room, rQueue.size)
    {
      hide FeedAll, Concat, Assembled, Payloads, Packets, Accounted, Lost, Admits, Queue.Contents, Queue.Valid;
      ghost var whole, before := Taken(rPkt.init, rPkt.pieces), rQueue.Contents();
      var p := rPkt.Finalize();
      var ok := rQueue.Offer(p);
      AccountedMore(rPkt.rule, taken, room, delivered, before, whole, p, ok);
      TakenMore(rPkt.rule, taken, room, delivered, before, whole, ok);
      AdmitsOne(room, |before|);
      taken := taken + [whole];
      room := room + [ok];
    }

    /** A length prefix; one that announces no payload is skipped. */
    method ReadPrefix(ptr: nat, avail: nat)
      requires Core() && rPkt.buf == null && 4 <= avail && ptr + avail <= BUFFER_SIZE
      modifies this, rPkt
      ensures Core() && fresh(Repr() - old(Repr())) && rPos == old(rPos) && delivered == old(delivered)
      ensures room == old(room)
      ensures Ahead(ptr + 4, avail - 4) == old(Ahead(ptr, avail))
    {
      hide FeedAll, LoadWord, SwapBytes, Concat, Assembled, Payloads, Packets, Accounted, Lost, Admits;
      hide Queue.Contents, Queue.Valid;
      ghost var prefix := rBuf[ptr..ptr + 4];
      CutAt(consumed, rBuf[ptr..ptr + avail], 4);
      assert rBuf[ptr..ptr + avail][..4] == prefix;
      assert rBuf[ptr..ptr + avail][4..] == rBuf[ptr + 4..ptr + avail];
      var pktSize := SwapBytes(LoadWord(rBuf[ptr..ptr + 4]));
      FeedAllSplit(START, consumed, prefix);
      FeedPrefix(prefix);
      consumed := consumed + prefix;
      if pktSize > 4 {
        rPkt.SetSize(pktSize - 4);
        assert Concat([]) == [] by { ConcatNothing(); }
      }
      assert Payloads(taken) + [] == Payloads(taken);
    }

    /** A length prefix and what is there of its payload. */
    method ReadFrame(ptr: nat, avail: nat, ghost room0: seq<bool>, ghost size0: nat) returns (used: nat)
      requires Core() && rPkt.buf == null && 4 <= avail && ptr + avail <= BUFFER_SIZE
      requires Admits(room0, size0, room, rQueue.size)
      modifies Repr()
      ensures Core() && fresh(Repr() - old(Repr())) && rPos == old(rPos) && delivered == old(delivered)
      ensures Admits(room0, size0, room, rQueue.size)
      ensures 0 < used <= avail && (rPkt.buf != null ==> used == avail)
      ensures Ahead(ptr + used, avail - used) == old(Ahead(ptr, avail))
    {
      hide FeedAll, Concat, Assembled, Payloads, Packets, Accounted, Lost, Admits, Apart, Queue.Contents, Queue.Valid;
      ReadPrefix(ptr, avail);
      used := 4;
      if rPkt.buf != null && avail > 4 {
        var added := FillFrom(ptr + 4, avail - 4);
        AdmitsTwice(room0, size0, old(room), old(rQueue.size), room, rQueue.size);
        used := used + added;
      }
    }

    /** Less than a length prefix is left: it waits at the start of the buffer. */
    method KeepRest(ptr: nat, avail: nat)
      requires Core() && rPkt.buf == null && rPos == 0 && avail < 4 && ptr + avail <= BUFFER_SIZE
      modifies this`rPos, rBuf
      ensures Valid() && Stream() == old(Ahead(ptr, avail)) && Repr() == old(Repr())
    {
      hide FeedAll, Concat, Assembled, Payloads, Packets, Accounted, Lost, Queue.Contents, Queue.Valid;
      rPos := avail;
      if ptr != 0 {
        forall i | 0 <= i < avail {
          rBuf[i] := rBuf[ptr + i];
        }
      }
      assert rBuf[..rPos] == old(rBuf[ptr..ptr + avail]);
    }

    lemma RoomForNone()
      requires Core()
      ensures Admits(room, rQueue.size, room, rQueue.size)
    {
      AdmitsNone(room, rQueue.size);
    }

    /** Frame after frame until the bytes run out. */
    method ReadFrames(first: nat, total: nat)
      requires Core() && rPos == 0 && first + total <= BUFFER_SIZE == rBuf.Length && (rPkt.buf != null ==> total == 0)
      modifies Repr()
      ensures Valid() && fresh(Repr() - old(Repr())) && delivered == old(delivered)
      ensures Stream() == old(Ahead(first, total))
      ensures Admits(old(room), old(rQueue.size), room, rQueue.size)
    {
      hide Core, Apart, Valid, Stream, Ahead, Admits;
      RoomForNone();
      var ptr: nat, avail: nat := first, total;
      while avail > 0
        invariant Core() && fresh(Repr() - old(Repr())) && rPos == 0 && delivered == old(delivered)
        invariant Admits(old(room), old(rQueue.size), room, rQueue.size)
        invariant ptr + avail <= BUFFER_SIZE && Ahead(ptr, avail) == old(Ahead(first, total))
        invariant rPkt.buf != null ==> avail == 0
      {
        if avail < 4 {
          KeepRest(ptr, avail);
          break;
        }
        var used := ReadFrame(ptr, avail, old(room), old(rQueue.size));
        avail := avail - used;
        ptr := ptr + used;
      }
      if avail == 0 {
        NothingLeft(ptr);
      }
    }

    lemma NothingLeft(ptr: nat)
      requires Core() && rPos == 0 && ptr <= BUFFER_SIZE == rBuf.Length
      ensures Valid() && Stream() == Ahead(ptr, 0)
    {
      hide FeedAll, Concat, Assembled, Payloads, Packets, Accounted, Queue.Contents, Queue.Valid;
      assert rBuf[ptr..ptr] == [] && rBuf[..0] == [];
    }

    /** The payload that was incomplete, if there is one. */
    method FillFirst(total: nat) returns (added: nat)
      requires Core() && rPos == 0 && 0 < total <= BUFFER_SIZE == rBuf.Length
      modifies Repr()
      ensures Core() && fresh(Repr() - old(Repr())) && rPos == 0 && delivered == old(delivered)
      ensures Admits(old(room), old(rQueue.size), room, rQueue.size)
      ensures added <= total && (rPkt.buf != null ==> added == total)
      ensures Ahead(added, total - added) == old(Ahead(0, total))
    {
      hide Core, Apart, Ahead, Admits;
      RoomForNone();
      added := 0;
      if rPkt.buf != null {
        added := FillFrom(0, total);
      }
    }

    /** The payload that was incomplete first, and then what follows it. */
    method ReadAll(total: nat)
      requires Core() && rPos == 0 && 0 < total <= BUFFER_SIZE == rBuf.Length
      modifies Repr()
      ensures Valid() && fresh(Repr() - old(Repr())) && delivered == old(delivered)
      ensures Stream() == old(Ahead(0, total))
      ensures Admits(old(room), old(rQueue.size), room, rQueue.size)
    {
      hide Core, Apart, Valid, Stream, Ahead, Admits;
      var added := FillFirst(total);
      ghost var roomBefore, sizeBefore := room, rQueue.size;
      ReadFrames(added, total - added);
      AdmitsTwice(old(room), old(rQueue.size), roomBefore, sizeBefore, room, rQueue.size);
    }

    /** One call of `recv` that returned these bytes. */
    method Ingest(chunk: Bytes)
      requires Valid() && 0 < |chunk| <= BUFFER_SIZE - rPos
      modifies Repr()
      ensures Valid() && fresh(Repr() - old(Repr())) && delivered == old(delivered)
      ensures Stream() == old(Stream()) + chunk
      ensures Admits(old(room), old(rQueue.size), room, rQueue.size)
    {
      var total := |chunk| + rPos;
      assert rBuf.Length == BUFFER_SIZE;
      hide Core, Apart, Valid, Stream, Ahead, Admits;
      Receive(chunk);
      ReadAll(total);
    }

    /** The bytes land after those that were waiting, and all of them are looked at from the start. */
    method Receive(chunk: Bytes)
      requires Valid() && 0 < |chunk| <= BUFFER_SIZE - rPos
      modifies this`rPos, rBuf
      ensures Core() && rPos == 0 && Repr() == old(Repr())
      ensures Ahead(0, old(rPos) + |chunk|) == old(Stream()) + chunk
    {
      hide FeedAll, Concat, Assembled, Payloads, Packets, Whole, Kept, Lost, Queue.Contents, Queue.Valid;
      ghost var waiting := rBuf[..rPos];
      Copy(rBuf, rPos, chunk);
      assert rBuf[..rPos + |chunk|] == rBuf[..][..rPos + |chunk|] == waiting + chunk;
      assert consumed + (waiting + chunk) == (consumed + waiting) + chunk;
      rPos := 0;
    }

    /** However the stream was cut, what has been taken off it is what decoding it in one go gives. */
    lemma Decoded()
      requires Valid()
      ensures FeedAll(START, Stream()).1 == Payloads(taken)
      ensures FeedAll(START, Stream()).0 == if rPkt.buf == null then Prefix(rBuf[..rPos]) else Busy()
    {
      hide Payloads, Accounted;
      var rest := rBuf[..rPos];
      FeedAllSplit(START, consumed, rest);
      if rPkt.buf == null {
        FeedPart([], rest);
        assert Payloads(taken) + [] == Payloads(taken);
      } else {
        assert consumed + rest == consumed;
      }
    }

    method NextPacket() returns (p: FPacket)
      requires Valid()
      modifies this, rQueue
      ensures Valid() && Stream() == old(Stream()) && Repr() == old(Repr())
      ensures taken == old(taken) && room == old(room) && rPos == old(rPos)
      ensures rQueue.Contents() == if old(rQueue.Contents()) == [] then [] else old(rQueue.Contents())[1..]
      ensures p == if old(rQueue.Contents()) == [] then Invalid else old(rQueue.Contents())[0]
      ensures delivered == if old(rQueue.Contents()) == [] then old(delivered) else old(delivered) + [p]
    {
      hide FeedAll, Concat, Assembled, Payloads, Packets, Whole, Kept, Lost, Queue.Contents, Queue.Valid;
      p := Invalid;
      if rQueue.size > 0 {
        p := rQueue.First();
        ghost var before := rQueue.Contents();
        var ok := rQueue.Poll();
        assert before == [p] + rQueue.Contents();
        assert delivered + before == (delivered + [p]) + rQueue.Contents();
        delivered := delivered + [p];
      }
    }
  }

  /** What happens at a socket: a read of some bytes, an orderly close, or an error. */
  datatype RecvResult = Received(chunk: Bytes) | RecvClosed | RecvFailed(wouldBlock: bool)

  datatype SendResult = Sent(n: nat) | SendClosed | SendFailed(wouldBlock: bool)

  predicate OnlyFrames(q: seq<FPacket>) {
    forall i :: 0 <= i < |q| ==> q[i].FPacket? && q[i].bytes != []
  }

  function Wire(q: seq<FPacket>): Bytes
    requires OnlyFrames(q)
  {
    if q == [] then [] else q[0].bytes + Wire(q[1..])
  }

  lemma WireFirst(q: seq<FPacket>)
    requires OnlyFrames(q)
    ensures q != [] ==> OnlyFrames(q[1..]) && q[0].FPacket? && q[0].bytes != [] && q[0].bytes[0..] == q[0].bytes
    ensures Wire(q) == if q == [] then [] else q[0].bytes + Wire(q[1..])
  {
  }

  lemma NothingBefore(s: Bytes)
    ensures [] + s == s
  {
  }

  lemma NothingBehind(s: Bytes)
    ensures s + [] == s
  {
  }

  lemma {:induction false} WireAppend(q: seq<FPacket>, p: FPacket)
    requires OnlyFrames(q) && p.FPacket? && p.bytes != []
    ensures OnlyFrames(q + [p]) && Wire(q + [p]) == Wire(q) + p.bytes
    decreases q
  {
    if q == [] {
      assert q + [p] == [p] && Wire([p][1..]) == [];
    } else {
      WireAppend(q[1..], p);
      assert (q + [p])[1..] == q[1..] + [p];
      assert (q[0].bytes + Wire(q[1..])) + p.bytes == q[0].bytes + (Wire(q[1..]) + p.bytes);
    }
  }

  class Sender {
    const sQueue: Queue<FPacket>
    var sPkt: FPacket
    var sPos: nat
    // The payloads whose packets the queue took, and the bytes the socket took.
    ghost var accepted: seq<Bytes>
    ghost var sent: Bytes

    ghost function Repr(): set<object>
      reads this, sQueue
    {
      {this, sQueue, sQueue.data, sQueue.buffer}
    }

    /** What is left of the packet being sent. */
    ghost function Current(): Bytes
      reads this
    {
      if sPkt.FPacket? && sPos <= |sPkt.bytes| then sPkt.bytes[sPos..] else []
    }

    ghost predicate HasWork()
      reads this, Repr()
      requires Valid()
    {
      sPkt.FPacket? || sQueue.Contents() != []
    }

    /** What would be sent of one packet now. */
    ghost function Next(): Bytes
      reads this, Repr()
      requires Valid()
    {
      if sPkt.FPacket? || sQueue.Contents() == [] then Current() else sQueue.Contents()[0].bytes
    }

    ghost predicate Valid()
      reads this, Repr()
    {
      && sQueue.Valid() && sQueue.backlog == BACKLOG && OnlyFrames(sQueue.Contents())
      && (if sPkt.FPacket? then sPos < |sPkt.bytes| else sPos == 0)
      && Sendable(accepted)
      && sent + (Current() + Wire(sQueue.Contents())) == Frames(accepted)
    }

    constructor ()
      ensures Valid() && fresh(Repr()) && accepted == [] && sent == [] && Current() == []
      ensures sQueue.Contents() == []
    {
      hide Queue.Contents, Queue.Valid;
      sQueue := new Queue<FPacket>(BACKLOG);
      sPkt := Invalid;
      sPos := 0;
      accepted, sent := [], [];
    }

    /** The packets sent come out of `Packet.Finalize`. */
    method Send(p: FPacket, ghost payload: Bytes) returns (ok: bool)
      requires Valid()
      requires |payload| + 4 <= MAX_U32 && p == FPacket(Frame(payload))
      modifies Repr()
      ensures Valid() && Repr() == old(Repr()) && sent == old(sent) && Current() == old(Current())
      ensures sPkt == old(sPkt)
      ensures sQueue.Contents() == if ok then old(sQueue.Contents()) + [p] else old(sQueue.Contents())
      ensures ok <==> |old(sQueue.Contents())| < BACKLOG
      ensures accepted == if ok then old(accepted) + [payload] else old(accepted)
    {
      hide Frame, Frames, Wire, OnlyFrames, Sendable, Queue.Contents, Queue.Valid;
      ghost var before := sQueue.Contents();
      WireAppend(before, p);
      ok := sQueue.Offer(p);
      if ok {
        FramesAppend(accepted, payload);
        AddLast(sent, Current(), Wire(before), p.bytes);
        accepted := accepted + [payload];
      }
    }

    /** Also fetches the next packet to send; this is how both the server and the client do it. */
    method NeedsWrite() returns (ret: bool)
      requires Valid()
      modifies this`sPkt, sQueue
      ensures Valid() && Repr() == old(Repr())
      ensures sQueue.Contents() == if old(sPkt).FPacket? || old(sQueue.Contents()) == [] then old(sQueue.Contents())
                                   else old(sQueue.Contents())[1..]
      ensures ret == sPkt.FPacket? == old(HasWork())
      ensures Current() == old(Next()) && (ret ==> Current() != [])
      ensures !ret ==> sent == Frames(accepted)
    {
      hide Frames, Wire, OnlyFrames, Sendable, Queue.Contents, Queue.Valid;
      if sPkt.FPacket? {
        return true;
      }
      ret := false;
      if sQueue.size > 0 {
        FetchPacket();
        ret := true;
      } else {
        WireFirst([]);
        NothingBefore([]);
        NothingBehind(sent);
      }
    }

    method FetchPacket()
      requires Valid() && sPkt.Invalid? && sQueue.size > 0
      modifies this`sPkt, sQueue
      ensures Valid() && Repr() == old(Repr()) && sQueue.Contents() == old(sQueue.Contents()[1..])
      ensures sPkt.FPacket? && sPkt == old(sQueue.Contents()[0]) && Current() == sPkt.bytes != []
    {
      hide Frames, Wire, OnlyFrames, Sendable, Queue.Contents, Queue.Valid;
      ghost var before := sQueue.Contents();
      WireFirst(before);
      sPkt := sQueue.First();
      var ok := sQueue.Poll();
      NothingBefore(Wire(before));
    }

    /** The socket took `n` more bytes of the packet. */
    method Took(n: nat)
      requires Valid() && sPkt.FPacket? && 0 < n <= |Current()|
      modifies this
      ensures Valid() && Repr() == old(Repr()) && accepted == old(accepted)
      ensures sent == old(sent) + old(Current())[..n] && Current() == old(Current())[n..]
      ensures sPkt.Invalid? <==> n == |old(Current())|
    {
      hide Frames, Wire, OnlyFrames, Sendable, Queue.Contents, Queue.Valid;
      ghost var whole := Current();
      sent := sent + whole[..n];
      sPos := sPos + n;
      if sPos >= |sPkt.bytes| {
        sPkt := Invalid;
        sPos := 0;
      }
      assert Current() == whole[n..] && whole == whole[..n] + whole[n..];
      TakeOver(old(sent), whole, Wire(sQueue.Contents()), n);
    }
  }

  lemma TakeOver(sent: Bytes, current: Bytes, waiting: Bytes, n: nat)
    requires n <= |current|
    ensures (sent + current[..n]) + (current[n..] + waiting) == sent + (current + waiting)
  {
  }

  lemma AddLast(sent: Bytes, current: Bytes, waiting: Bytes, more: Bytes)
    ensures sent + (current + (waiting + more)) == (sent + (current + waiting)) + more
  {
  }

  lemma CutAt(done: Bytes, s: Bytes, k: nat)
    requires k <= |s|
    ensures (done + s[..k]) + s[k..] == done + s
  {
  }

  lemma ConcatNothing()
    ensures Concat([]) == []
  {
  }
}
