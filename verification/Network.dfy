/** A connection between two hosts on plain values: which events change it how, and what that means for whole runs. */
module Network {
  import opened Framing
  import opened Packet
  import opened Transport
  import opened Words

  /** What can happen next: a packet is queued, one is fetched to be sent, bytes leave, bytes arrive, one is read. */
  datatype Event = Enqueue(payload: Bytes) | Fetch | Leave(n: nat) | Arrive(n: nat) | Take

  predicate Fits(e: Event) {
    e.Enqueue? ==> |e.payload| + 4 <= MAX_U32
  }

  predicate Sizes(events: seq<Event>) {
    forall i :: 0 <= i < |events| ==> Fits(events[i])
  }

  /** A connection as plain values: the payloads accepted, the frames queued, what is left of the one being sent, the
      bytes on the way and those that have arrived, which payloads found room, how many packets wait, how many the
      user has. */
  datatype Net = Net(accepted: seq<Bytes>, queued: seq<Bytes>, current: Bytes, wire: Bytes, arrived: Bytes,
                     room: seq<bool>, waiting: nat, delivered: nat)

  const QUIET := Net([], [], [], [], [], [], 0, 0)

  function Min(a: nat, b: nat): nat {
    if a < b then a else b
  }

  /** How many bytes wait for a length prefix to be complete. */
  function Pending(decoder: Rx): (n: nat)
    ensures n <= BUFFER_SIZE
  {
    if decoder.Prefix? then Min(|decoder.part|, BUFFER_SIZE) else 0
  }

  /** A full queue takes no packet, at either end; one frame is sent at a time; a read gives what fits into the buffer
      behind an incomplete prefix. */
  function Step(net: Net, e: Event): Net
    requires Fits(e)
  {
    match e
    case Enqueue(payload) =>
      if |net.queued| >= BACKLOG then net
      else net.(accepted := net.accepted + [payload], queued := net.queued + [Frame(payload)])
    case Fetch =>
      if net.current != [] || net.queued == [] then net
      else net.(current := net.queued[0], queued := net.queued[1..])
    case Leave(n) =>
      var k := Min(n, |net.current|);
      net.(current := net.current[k..], wire := net.wire + net.current[..k])
    case Arrive(n) =>
      var decoder := FeedAll(START, net.arrived).0;
      var k := Min(Min(n, |net.wire|), BUFFER_SIZE - Pending(decoder));
      var more := |FeedAll(decoder, net.wire[..k]).1|;
      net.(arrived := net.arrived + net.wire[..k], wire := net.wire[k..],
           room := net.room + Admitted(net.waiting, more), waiting := Min(net.waiting + more, BACKLOG))
    case Take =>
      if net.waiting == 0 then net else net.(waiting := net.waiting - 1, delivered := net.delivered + 1)
  }

  function After(net: Net, events: seq<Event>): Net
    requires Sizes(events)
  {
    if events == [] then net else Step(After(net, events[..|events| - 1]), events[|events| - 1])
  }

  lemma AfterNext(net: Net, events: seq<Event>, i: nat)
    requires Sizes(events) && i < |events|
    ensures Sizes(events[..i]) && Sizes(events[..i + 1])
    ensures After(net, events[..i + 1]) == Step(After(net, events[..i]), events[i])
  {
    hide Step;
    assert events[..i + 1][..i] == events[..i];
  }

  lemma {:induction false} AfterFirst(net: Net, e: Event, events: seq<Event>)
    requires Fits(e) && Sizes(events)
    ensures Sizes([e] + events) && After(net, [e] + events) == After(Step(net, e), events)
    decreases events
  {
    hide Step;
    if events == [] {
      assert After(net, [e][..0]) == net && [e] + events == [e];
    } else {
      var last := |events| - 1;
      AfterFirst(net, e, events[..last]);
      assert ([e] + events)[..last + 1] == [e] + events[..last];
    }
  }

  lemma PayloadsOfChunk(arrived: Bytes, chunk: Bytes)
    ensures |FeedAll(START, arrived + chunk).1|
            == |FeedAll(START, arrived).1| + |FeedAll(FeedAll(START, arrived).0, chunk).1|
    ensures chunk == [] ==> FeedAll(FeedAll(START, arrived).0, chunk).1 == [] && arrived + chunk == arrived
  {
    FeedAllSplit(START, arrived, chunk);
  }

  // What all of them keep.

  lemma {:induction false} ConcatFirst(pieces: seq<Bytes>)
    requires pieces != []
    ensures Concat(pieces) == pieces[0] + Concat(pieces[1..])
    decreases pieces
  {
    var last := |pieces| - 1;
    if last > 0 {
      ConcatFirst(pieces[..last]);
      assert pieces[..last][1..] == pieces[1..][..last - 1];
      assert (pieces[0] + Concat(pieces[1..][..last - 1])) + pieces[last] == pieces[0] + Concat(pieces[1..]);
    } else {
      assert pieces[..0] == [] && pieces[1..] == [];
      assert [] + pieces[0] == pieces[0] == pieces[0] + [];
    }
  }

  /** No byte is made or lost on the way: what has arrived, is on the wire, being sent and queued are the frames of what
      was accepted. And of the payloads arrived each was delivered, waits, or was lost. */
  ghost predicate Conserved(net: Net) {
    && Sendable(net.accepted)
    && (net.arrived + net.wire) + (net.current + Concat(net.queued)) == Frames(net.accepted)
    && |net.room| == |FeedAll(START, net.arrived).1| == net.delivered + net.waiting + Lost(net.room)
    && net.waiting <= BACKLOG
  }

  lemma StepConserves(net: Net, e: Event)
    requires Conserved(net) && Fits(e)
    ensures Conserved(Step(net, e))
  {
    match e
    case Enqueue(payload) => EnqueueConserves(net, payload);
    case Fetch => FetchConserves(net);
    case Leave(n) => LeaveConserves(net, n);
    case Arrive(n) => ArriveConserves(net, n);
    case Take =>
  }

  lemma EnqueueConserves(net: Net, payload: Bytes)
    requires Conserved(net) && Fits(Enqueue(payload))
    ensures Conserved(Step(net, Enqueue(payload)))
  {
    hide FeedAll, Frame, Frames, Sendable, Lost, Concat;
    FramesAppend(net.accepted, payload);
    ConcatAppend(net.queued, Frame(payload));
    AddLast(net.arrived + net.wire, net.current, Concat(net.queued), Frame(payload));
  }

  lemma FetchConserves(net: Net)
    requires Conserved(net)
    ensures Conserved(Step(net, Fetch))
  {
    hide FeedAll, Frames, Sendable, Lost, Concat;
    if net.queued != [] {
      ConcatFirst(net.queued);
      assert [] + Concat(net.queued) == Concat(net.queued);
    }
  }

  lemma LeaveConserves(net: Net, n: nat)
    requires Conserved(net)
    ensures Conserved(Step(net, Leave(n)))
  {
    hide FeedAll, Frames, Sendable, Lost, Concat;
    var k := Min(n, |net.current|);
    TakeOver(net.arrived + net.wire, net.current, Concat(net.queued), k);
    assert (net.arrived + net.wire) + net.current[..k] == net.arrived + (net.wire + net.current[..k]);
  }

  lemma ArriveConserves(net: Net, n: nat)
    requires Conserved(net)
    ensures Conserved(Step(net, Arrive(n)))
  {
    hide FeedAll, Frames, Sendable, Lost, Concat, Admitted, Pending;
    var decoder := FeedAll(START, net.arrived).0;
    var chunk := net.wire[..Min(Min(n, |net.wire|), BUFFER_SIZE - Pending(decoder))];
    PayloadsOfChunk(net.arrived, chunk);
    AdmitsLost(net.room, net.waiting, |FeedAll(decoder, chunk).1|);
    CutAt(net.arrived, net.wire, |chunk|);
  }

  lemma {:induction false} AfterConserves(net: Net, events: seq<Event>)
    requires Conserved(net) && Sizes(events)
    ensures Conserved(After(net, events))
    decreases events
  {
    hide Step, Conserved;
    if events != [] {
      AfterConserves(net, events[..|events| - 1]);
      StepConserves(After(net, events[..|events| - 1]), events[|events| - 1]);
    }
  }

  lemma QuietConserves()
    ensures Conserved(QUIET)
  {
  }

  // What is still under way can always come through.

  /** Nothing is left on the way, and nothing waits to be read. */
  predicate Drained(net: Net) {
    net.queued == [] && net.current == [] && net.wire == [] && net.waiting == 0
  }

  /** A byte that arrives at an empty queue completes at most one packet, and that finds room. */
  lemma OneByte(net: Net)
    requires net.wire != [] && net.waiting == 0
    ensures var next := Step(net, Arrive(1));
            next.wire == net.wire[1..] && next.waiting <= 1 && Lost(next.room) == Lost(net.room)
  {
    hide Lost;
    var decoder, b := FeedAll(START, net.arrived).0, net.wire[..1];
    ReachableKept(START, net.arrived);
    assert FeedAll(decoder, b).1 == Feed(decoder, b[0]).1;
    AdmitsLost(net.room, 0, |FeedAll(decoder, b).1|);
  }

  /** If the user reads what waits, the network brings one byte after the other, and the socket takes what it is given,
      then everything comes through and nothing more is lost. */
  lemma {:induction false} CanDrain(net: Net) returns (events: seq<Event>)
    requires Conserved(net)
    ensures Sizes(events)
    ensures var end := After(net, events);
            Drained(end) && end.accepted == net.accepted && Lost(end.room) == Lost(net.room)
    decreases |net.queued|, |net.current|, |net.wire|, net.waiting
  {
    hide FeedAll, Lost, Frames, Sendable, Concat;
    if Drained(net) {
      return [];
    }
    var e := if net.waiting > 0 then Take else if net.wire != [] then Arrive(1)
             else if net.current != [] then Leave(|net.current|) else Fetch;
    if e.Arrive? {
      OneByte(net);
    }
    StepConserves(net, e);
    var rest := CanDrain(Step(net, e));
    AfterFirst(net, e, rest);
    events := [e] + rest;
  }

  lemma {:induction false} AfterBoth(net: Net, events: seq<Event>, more: seq<Event>)
    requires Sizes(events) && Sizes(more)
    ensures Sizes(events + more) && After(net, events + more) == After(After(net, events), more)
    decreases more
  {
    hide Step;
    if more == [] {
      assert events + more == events;
    } else {
      var last := |more| - 1;
      AfterBoth(net, events, more[..last]);
      assert (events + more)[..|events| + last] == events + more[..last];
    }
  }

  lemma AtRest(net: Net)
    requires Conserved(net) && Drained(net)
    ensures Sendable(net.accepted) && net.arrived == Frames(net.accepted)
    ensures net.delivered + Lost(net.room) == |NonEmpty(net.accepted)|
  {
    hide FeedAll, Frames, Sendable, NonEmpty, Lost;
    assert (net.arrived + []) + ([] + Concat([])) == net.arrived;
    DecodedIsPrefix(net.accepted, net.arrived);
  }

  /** Whatever has happened, what was accepted and not yet lost can still reach the user, all of it: in the end as many
      packets are delivered as payloads were accepted that are not empty, but for those lost before. */
  lemma AllCanArrive(events: seq<Event>) returns (more: seq<Event>)
    requires Sizes(events)
    ensures Sizes(events + more)
    ensures var now, end := After(QUIET, events), After(QUIET, events + more);
            && Drained(end) && end.accepted == now.accepted && Sendable(end.accepted)
            && end.arrived == Frames(end.accepted)
            && end.delivered + Lost(now.room) == |NonEmpty(end.accepted)|
  {
    hide Step, After, Conserved, Drained, Sendable, Sizes, Frames, NonEmpty, Lost;
    QuietConserves();
    AfterConserves(QUIET, events);
    var now := After(QUIET, events);
    more := CanDrain(now);
    AfterBoth(QUIET, events, more);
    AfterConserves(now, more);
    AtRest(After(now, more));
  }

  // The sizes of the queues and of the receive buffer.

  function Burst(payloads: seq<Bytes>): (events: seq<Event>)
    ensures |events| == |payloads|
  {
    seq(|payloads|, i requires 0 <= i < |payloads| => Enqueue(payloads[i]))
  }

  /** Of payloads sent at once before the first can leave, 128 are accepted. */
  lemma {:induction false} BurstAccepted(payloads: seq<Bytes>)
    requires Sendable(payloads)
    ensures Sizes(Burst(payloads))
    ensures var net := After(QUIET, Burst(payloads));
            && net.accepted == (if |payloads| <= 128 then payloads else payloads[..128])
            && |net.queued| == |net.accepted|
    decreases payloads
  {
    hide Frame;
    if payloads != [] {
      var last := |payloads| - 1;
      BurstAccepted(payloads[..last]);
      assert Burst(payloads)[..last] == Burst(payloads[..last]);
      assert payloads[..last] + [payloads[last]] == payloads;
    }
  }

  /** A read takes what is on the wire, but no more than 8192 bytes with those that wait for their length prefix. */
  lemma OneRead(net: Net, n: nat)
    ensures var next, decoder := Step(net, Arrive(n)), FeedAll(START, net.arrived).0;
            && next.arrived + next.wire == net.arrived + net.wire
            && var more, waiting := |next.arrived| - |net.arrived|, if decoder.Prefix? then |decoder.part| else 0;
               && more <= n && more <= |net.wire| && more + waiting <= 8192
               && (more == n || more == |net.wire| || more + waiting == 8192)
  {
    ReachableKept(START, net.arrived);
  }
}
