/** A sender at one end, a receiver at the other, and the bytes between them. */
module Link {
  import opened Framing
  import opened Network
  import opened Packet
  import Queue
  import opened Transport
  import opened Words

  /** The i-th packet delivered is the size of the i-th payload, and is that payload if `fill` did not overwrite it. */
  ghost predicate InOrder(rule: FillRule, taken: seq<Taken>, delivered: seq<FPacket>, payloads: seq<Bytes>) {
    && |delivered| <= |taken| && |delivered| <= |payloads|
    && forall i :: 0 <= i < |delivered| ==>
        && delivered[i].FPacket? && |delivered[i].bytes| == |payloads[i]|
        && (rule.AtPosition? || |taken[i].pieces| <= 1 ==> delivered[i].bytes == payloads[i])
  }

  /** Some of the bytes sent have arrived. The packets delivered are those of the payloads sent, in order, that found
      room in the receiver's queue. */
  lemma EndToEnd(rule: FillRule, accepted: seq<Bytes>, sent: Bytes, arrived: Bytes,
                 taken: seq<Taken>, room: seq<bool>, delivered: seq<FPacket>, waiting: seq<FPacket>)
    requires Sendable(accepted) && arrived <= sent <= Frames(accepted)
    requires FeedAll(START, arrived).1 == Payloads(taken)
    requires Accounted(rule, taken, room, delivered, waiting)
    ensures Payloads(taken) <= NonEmpty(accepted)
    ensures InOrder(rule, Kept(taken, room), delivered, Kept(NonEmpty(accepted)[..|taken|], room))
    ensures Lost(room) == 0 ==> InOrder(rule, taken, delivered, NonEmpty(accepted))
    ensures arrived == Frames(accepted) ==> Payloads(taken) == NonEmpty(accepted)
  {
    hide FeedAll, Frames, NonEmpty, Concat, Assembled, Kept, Lost, Whole, Packets, Payloads, InOrder;
    DecodedIsPrefix(accepted, arrived);
    var all := NonEmpty(accepted);
    assert all[..|taken|] == Payloads(taken);
    KeptWhole(taken, room);
    DeliveredInOrder(rule, Kept(taken, room), delivered, waiting);
    if Lost(room) == 0 {
      AllKept(taken, room);
      AllKept(all[..|taken|], room);
      InOrderLonger(rule, taken, delivered, all[..|taken|], all);
    }
  }

  lemma InOrderLonger(rule: FillRule, taken: seq<Taken>, delivered: seq<FPacket>, payloads: seq<Bytes>,
                      longer: seq<Bytes>)
    requires InOrder(rule, taken, delivered, payloads) && payloads <= longer
    ensures InOrder(rule, taken, delivered, longer)
  {
  }

  lemma DeliveredInOrder(rule: FillRule, kept: seq<Taken>, delivered: seq<FPacket>, waiting: seq<FPacket>)
    requires Whole(kept) && delivered + waiting == Packets(rule, kept)
    ensures InOrder(rule, kept, delivered, Payloads(kept))
  {
    hide Concat, Assembled;
    forall i | 0 <= i < |delivered|
      ensures delivered[i].FPacket? && |delivered[i].bytes| == |Payloads(kept)[i]|
      ensures rule.AtPosition? || |kept[i].pieces| <= 1 ==> delivered[i].bytes == Payloads(kept)[i]
    {
      assert delivered[i] == (delivered + waiting)[i] == Packets(rule, kept)[i];
      if rule.AtPosition? || |kept[i].pieces| <= 1 {
        Intact(rule, kept[i]);
      }
    }
  }

  lemma Intact(rule: FillRule, t: Taken)
    requires |Concat(t.pieces)| == |t.init| && (rule.AtPosition? || |t.pieces| <= 1)
    ensures Assembled(rule, t.init, t.pieces) == Concat(t.pieces)
  {
    if rule.AtPosition? {
      AtPositionKeeps(t.init, t.pieces);
    } else if |t.pieces| == 1 {
      assert t.pieces == [] + [t.pieces[0]];
      ConcatAppend([], t.pieces[0]);
      OnePieceKeeps(rule, t.init, t.pieces[0]);
    }
  }

  /** The two halves and the bytes between them are in the state `net` describes. */
  ghost predicate SenderIn(s: Sender, net: Net)
    reads s, s.Repr()
  {
    && s.Valid() && s.accepted == net.accepted && s.Current() == net.current
    && s.sQueue.Contents() == Framed(net.queued) && s.sent == net.arrived + net.wire
  }

  ghost predicate ReceiverIn(r: Receiver, net: Net)
    reads r, r.Repr()
  {
    && r.Valid() && r.Stream() == net.arrived && r.room == net.room
    && |r.rQueue.Contents()| == net.waiting && |r.delivered| == net.delivered
  }

  ghost predicate Joined(s: Sender, r: Receiver, wire: Bytes, net: Net)
    reads s, s.Repr(), r, r.Repr()
  {
    SenderIn(s, net) && ReceiverIn(r, net) && wire == net.wire && s.Repr() !! r.Repr()
  }

  function Framed(frames: seq<Bytes>): (q: seq<FPacket>)
    ensures |q| == |frames|
  {
    seq(|frames|, i requires 0 <= i < |frames| => FPacket(frames[i]))
  }

  lemma FramedMore(frames: seq<Bytes>, f: Bytes)
    ensures Framed(frames + [f]) == Framed(frames) + [FPacket(f)]
    ensures frames != [] ==> Framed(frames)[0] == FPacket(frames[0]) && Framed(frames[1..]) == Framed(frames)[1..]
  {
  }

  method MakePacket(payload: Bytes) returns (p: FPacket)
    requires |payload| + 4 <= MAX_U32
    ensures p == FPacket(Frame(payload))
  {
    var packet := new Packet();
    packet.Write(payload);
    assert packet.Payload() == payload;
    p := packet.Finalize();
  }

  /** As many bytes as the socket wants, of those it is given. */
  method SendSome(s: Sender, wire: Bytes, n: nat, ghost net: Net) returns (wire': Bytes)
    requires SenderIn(s, net) && wire == net.wire
    modifies s
    ensures s.Repr() == old(s.Repr())
    ensures SenderIn(s, Step(net, Leave(n))) && wire' == Step(net, Leave(n)).wire
  {
    wire' := wire;
    if s.sPkt.FPacket? && 0 < n {
      var k := if n < |s.sPkt.bytes| - s.sPos then n else |s.sPkt.bytes| - s.sPos;
      wire' := wire + s.sPkt.bytes[s.sPos..][..k];
      s.Took(k);
    }
  }

  method SendOne(s: Sender, payload: Bytes, ghost net: Net)
    requires SenderIn(s, net) && |payload| + 4 <= MAX_U32
    modifies s.Repr()
    ensures s.Repr() == old(s.Repr())
    ensures SenderIn(s, Step(net, Enqueue(payload))) && Step(net, Enqueue(payload)).wire == net.wire
  {
    hide Sender.Valid, Frame, FeedAll, Framed, Queue.Queue.Valid, Queue.Queue.Contents;
    FramedMore(net.queued, Frame(payload));
    var p := MakePacket(payload);
    var ok := s.Send(p, payload);
  }

  method FetchOne(s: Sender, ghost net: Net)
    requires SenderIn(s, net)
    modifies s.Repr()
    ensures s.Repr() == old(s.Repr())
    ensures SenderIn(s, Step(net, Fetch)) && Step(net, Fetch).wire == net.wire
  {
    hide FeedAll, Framed, Queue.Queue.Valid, Queue.Queue.Contents;
    FramedMore(net.queued, []);
    var ok := s.NeedsWrite();
  }

  method SenderSide(s: Sender, wire: Bytes, e: Event, ghost net: Net) returns (wire': Bytes)
    requires SenderIn(s, net) && wire == net.wire && Fits(e) && (e.Enqueue? || e.Fetch? || e.Leave?)
    modifies s.Repr()
    ensures s.Repr() == old(s.Repr())
    ensures SenderIn(s, Step(net, e)) && wire' == Step(net, e).wire
  {
    hide SenderIn, Step;
    wire' := wire;
    match e {
      case Enqueue(payload) =>
        SendOne(s, payload, net);
      case Fetch =>
        FetchOne(s, net);
      case Leave(n) =>
        wire' := SendSome(s, wire, n, net);
      case _ =>
    }
  }

  /** What the receiver's stream says about its buffer and its packets. */
  lemma Standing(r: Receiver)
    requires r.Valid()
    ensures r.rPos <= r.rBuf.Length == BUFFER_SIZE
    ensures r.rPos == Pending(FeedAll(START, r.Stream()).0) && |r.room| == |FeedAll(START, r.Stream()).1|
    ensures |r.rQueue.Contents()| == r.rQueue.size <= BACKLOG
  {
    hide FeedAll, Payloads;
    r.Decoded();
  }

  /** As many bytes as the network gives, of those on the way and those that fit. */
  method ReceiveSome(r: Receiver, wire: Bytes, n: nat, ghost net: Net) returns (wire': Bytes)
    requires ReceiverIn(r, net) && wire == net.wire
    modifies r.Repr()
    ensures fresh(r.Repr() - old(r.Repr()))
    ensures ReceiverIn(r, Step(net, Arrive(n))) && wire' == Step(net, Arrive(n)).wire
  {
    hide Receiver.Valid, Receiver.Stream, Receiver.Core, FeedAll, Admitted, Payloads;
    hide Queue.Queue.Contents, Queue.Queue.Valid;
    wire' := wire;
    Standing(r);
    ghost var before := r.Stream();
    var k := if n < |wire| then n else |wire|;
    if k > BUFFER_SIZE - r.rPos {
      k := BUFFER_SIZE - r.rPos;
    }
    PayloadsOfChunk(before, wire[..k]);
    assert net.room + Admitted(net.waiting, 0) == net.room;
    if k > 0 {
      r.Ingest(wire[..k]);
      Standing(r);
      wire' := wire[k..];
    }
  }

  method ReceiverSide(r: Receiver, wire: Bytes, e: Event, ghost net: Net) returns (wire': Bytes)
    requires ReceiverIn(r, net) && wire == net.wire && (e.Arrive? || e.Take?)
    modifies r.Repr()
    ensures fresh(r.Repr() - old(r.Repr()))
    ensures ReceiverIn(r, Step(net, e)) && wire' == Step(net, e).wire
  {
    hide Receiver.Valid, Receiver.Stream;
    wire' := wire;
    match e {
      case Arrive(n) =>
        wire' := ReceiveSome(r, wire, n, net);
      case Take =>
        var p := r.NextPacket();
      case _ =>
    }
  }

  method Happen(s: Sender, r: Receiver, wire: Bytes, e: Event, ghost net: Net) returns (wire': Bytes)
    requires Joined(s, r, wire, net) && Fits(e)
    modifies s.Repr(), r.Repr()
    ensures Joined(s, r, wire', Step(net, e))
    ensures fresh(s.Repr() - old(s.Repr())) && fresh(r.Repr() - old(r.Repr()))
  {
    hide Sender.Valid, Receiver.Valid, Receiver.Stream, FeedAll;
    if e.Enqueue? || e.Fetch? || e.Leave? {
      wire' := SenderSide(s, wire, e, net);
    } else {
      wire' := ReceiverSide(r, wire, e, net);
    }
  }

  method Connect(rule: FillRule) returns (s: Sender, r: Receiver)
    ensures Joined(s, r, [], QUIET) && fresh(s.Repr()) && fresh(r.Repr()) && r.rPkt.rule == rule
  {
    hide Sender.Valid, Receiver.Valid;
    s := new Sender();
    r := new Receiver(rule);
  }

  /** Whatever happens in whatever order, the connection is in the state the events say, and what the receiver has is
      the beginning of what was sent. */
  method Exchange(rule: FillRule, events: seq<Event>) returns (s: Sender, r: Receiver, wire: Bytes)
    requires Sizes(events)
    ensures Joined(s, r, wire, After(QUIET, events)) && fresh(s.Repr()) && fresh(r.Repr()) && r.rPkt.rule == rule
    ensures Payloads(r.taken) <= NonEmpty(s.accepted)
    ensures |r.room| == |r.taken|
    ensures InOrder(rule, Kept(r.taken, r.room), r.delivered, Kept(NonEmpty(s.accepted)[..|r.taken|], r.room))
    ensures Lost(r.room) == 0 ==> InOrder(rule, r.taken, r.delivered, NonEmpty(s.accepted))
    ensures s.sPkt.Invalid? && s.sQueue.size == 0 && wire == [] ==> Payloads(r.taken) == NonEmpty(s.accepted)
  {
    s, r := Connect(rule);
    wire := [];
    hide Joined, Step;
    for i := 0 to |events|
      invariant Joined(s, r, wire, After(QUIET, events[..i])) && fresh(s.Repr()) && fresh(r.Repr())
      invariant r.rPkt.rule == rule
    {
      AfterNext(QUIET, events, i);
      wire := Happen(s, r, wire, events[i], After(QUIET, events[..i]));
    }
    assert events[..|events|] == events;
    Conclude(s, r, wire, After(QUIET, events));
  }

  lemma Conclude(s: Sender, r: Receiver, wire: Bytes, net: Net)
    requires Joined(s, r, wire, net)
    ensures Payloads(r.taken) <= NonEmpty(s.accepted)
    ensures |r.room| == |r.taken|
    ensures InOrder(r.rPkt.rule, Kept(r.taken, r.room), r.delivered, Kept(NonEmpty(s.accepted)[..|r.taken|], r.room))
    ensures Lost(r.room) == 0 ==> InOrder(r.rPkt.rule, r.taken, r.delivered, NonEmpty(s.accepted))
    ensures s.sPkt.Invalid? && s.sQueue.size == 0 && wire == [] ==> Payloads(r.taken) == NonEmpty(s.accepted)
  {
    hide Payloads, Frames, NonEmpty, FeedAll;
    r.Decoded();
    EndToEnd(r.rPkt.rule, s.accepted, s.sent, r.Stream(), r.taken, r.room, r.delivered, r.rQueue.Contents());
  }
}
