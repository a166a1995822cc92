/** src/TCPClient.cpp: the client's thread, one turn of its loop at a time. */
module TcpClient {
  import opened Framing
  import opened Packet
  import Queue
  import opened Transport
  import opened Wrappers

  /** What `select` and the socket calls after it came back with in one turn. */
  datatype Turn = Timeout | SelectFailed | Ready(readable: Option<RecvResult>, writable: Option<SendResult>)

  /** A turn counts as an error by its last failure: a write that would block covers a failed read. */
  predicate Fails(turn: Turn, doOut: bool) {
    match turn
    case Timeout => false
    case SelectFailed => true
    case Ready(readable, writable) =>
      if doOut && writable.Some? && writable.value.SendFailed? then !writable.value.wouldBlock
      else readable == Some(RecvFailed(false))
  }

  /** Which turns count as errors: a failed `select`, a failed write, or a failed read that no blocked write follows. */
  lemma ErrorsCounted(r: Option<RecvResult>, n: nat, again: bool)
    ensures !Fails(Timeout, true) && !Fails(Timeout, false) && Fails(SelectFailed, true) && Fails(SelectFailed, false)
    ensures Fails(Ready(r, Some(SendFailed(false))), true) && !Fails(Ready(r, Some(SendFailed(true))), true)
    ensures Fails(Ready(Some(RecvFailed(false)), Some(Sent(n))), true)
    ensures Fails(Ready(Some(RecvFailed(false)), None), true)
    ensures Fails(Ready(Some(RecvFailed(false)), Some(SendFailed(again))), false)
    ensures !Fails(Ready(Some(RecvFailed(true)), None), true) && !Fails(Ready(None, Some(Sent(n))), true)
  {
  }

  predicate Closes(turn: Turn, doOut: bool) {
    turn.Ready? && (turn.readable == Some(RecvClosed) || (doOut && turn.writable == Some(SendClosed)))
  }

  /** Either side's orderly close ends the thread, a close met by a write only if there was something to write. */
  lemma ClosesCounted(r: Option<RecvResult>, w: Option<SendResult>, doOut: bool, chunk: Bytes, n: nat, again: bool)
    ensures Closes(Ready(Some(RecvClosed), w), doOut)
    ensures Closes(Ready(r, Some(SendClosed)), true)
    ensures Closes(Ready(r, Some(SendClosed)), false) <==> r == Some(RecvClosed)
    ensures !Closes(Timeout, doOut) && !Closes(SelectFailed, doOut)
    ensures r.None? || r == Some(Received(chunk)) || r == Some(RecvFailed(again)) ==>
            !Closes(Ready(r, None), doOut) && !Closes(Ready(r, Some(Sent(n))), doOut)
  {
  }

  function Incoming(turn: Turn): Bytes {
    if turn.Ready? && turn.readable.Some? && turn.readable.value.Received? then turn.readable.value.chunk else []
  }

  /** What leaves in a turn: nothing after the other side has closed, and no more than there is to send. */
  function Outgoing(turn: Turn, doOut: bool, next: Bytes): Bytes {
    if !turn.Ready? || turn.readable == Some(RecvClosed) || !doOut || turn.writable.None? then []
    else
      match turn.writable.value
      case Sent(n) => if n <= |next| then next[..n] else next
      case _ => []
  }

  class TcpClient {
    const receiver: Receiver
    const sender: Sender
    var running: bool
    var errorCount: nat

    ghost predicate Valid()
      reads this, receiver, receiver.Repr(), sender, sender.Repr()
    {
      && receiver.Valid() && sender.Valid()
      && receiver.Repr() !! sender.Repr() && this !in receiver.Repr() + sender.Repr()
    }

    constructor (rule: FillRule)
      ensures Valid() && running && errorCount == 0
      ensures receiver.Stream() == [] && sender.sent == []
    {
      hide Receiver.Valid, Sender.Valid, Receiver.Stream, Receiver.Core, Receiver.Apart, Sender.Current;
      hide Queue.Queue.Contents, Queue.Queue.Valid;
      receiver := new Receiver(rule);
      sender := new Sender();
      running := true;
      errorCount := 0;
      new;
      assert this !in receiver.Repr() + sender.Repr();
      assert receiver.Repr() !! sender.Repr();
    }

    /** A socket gives at most what fits, and takes at most what it is given. */
    ghost predicate Possible(turn: Turn)
      reads this, receiver, sender, sender.Repr()
      requires sender.Valid()
    {
      turn.Ready? ==>
        && (turn.readable.Some? && turn.readable.value.Received? ==>
              receiver.rPos <= BUFFER_SIZE && 0 < |turn.readable.value.chunk| <= BUFFER_SIZE - receiver.rPos)
        && (turn.writable.Some? && turn.writable.value.Sent? && sender.HasWork() ==>
              0 < turn.writable.value.n <= |sender.Next()|)
    }

    /** The socket calls of a turn. */
    method Transfer(turn: Turn, doOut: bool) returns (closed: bool, failed: bool)
      requires Valid() && turn.Ready? && (doOut ==> sender.sPkt.FPacket?)
      requires turn.readable.Some? && turn.readable.value.Received? ==>
          0 < |turn.readable.value.chunk| <= BUFFER_SIZE - receiver.rPos
      requires doOut && turn.writable.Some? && turn.writable.value.Sent? ==>
          0 < turn.writable.value.n <= |sender.Current()|
      modifies receiver.Repr(), sender
      ensures Valid() && fresh(receiver.Repr() - old(receiver.Repr())) && sender.accepted == old(sender.accepted)
      ensures receiver.Stream() == old(receiver.Stream()) + Incoming(turn)
      ensures sender.sent == old(sender.sent) + Outgoing(turn, doOut, old(sender.Current()))
      ensures closed == Closes(turn, doOut)
      ensures !closed ==> failed == Fails(turn, doOut)
    {
      hide Receiver.Core, Sender.Valid;
      closed, failed := false, false;
      if turn.readable.Some? {
        match turn.readable.value {
          case Received(chunk) => receiver.Ingest(chunk);
          case RecvClosed => return true, false;
          case RecvFailed(wouldBlock) => failed := !wouldBlock;
        }
      }
      if doOut && turn.writable.Some? {
        match turn.writable.value {
          case Sent(n) => sender.Took(n);
          case SendClosed => return true, false;
          case SendFailed(wouldBlock) => failed := !wouldBlock;
        }
      }
    }

    method CountError(failed: bool, maxError: nat)
      modifies this
      ensures errorCount == if failed then old(errorCount) + 1 else 0
      ensures running == (old(running) && !(failed && errorCount >= maxError))
    {
      if failed {
        errorCount := errorCount + 1;
        if errorCount >= maxError {
          running := false;
        }
      } else {
        errorCount := 0;
      }
    }

    /** What a turn does before the errors are counted. */
    method Poll(turn: Turn) returns (closed: bool, failed: bool)
      requires Valid() && Possible(turn)
      modifies receiver.Repr(), sender.Repr()
      ensures Valid() && fresh(receiver.Repr() - old(receiver.Repr())) && sender.accepted == old(sender.accepted)
      ensures receiver.Stream() == old(receiver.Stream()) + Incoming(turn)
      ensures sender.sent == old(sender.sent) + Outgoing(turn, old(sender.HasWork()), old(sender.Next()))
      ensures closed == Closes(turn, old(sender.HasWork())) &&
              (!closed ==> failed == Fails(turn, old(sender.HasWork())))
    {
      hide Receiver.Valid, Sender.Valid, Receiver.Stream;
      var doOut := sender.NeedsWrite();
      closed, failed := false, turn.SelectFailed?;
      if turn.Ready? {
        closed, failed := Transfer(turn, doOut);
      }
    }

    /** Unlike the server, a turn without an error forgives all earlier ones. */
    method Iterate(turn: Turn, maxError: nat)
      requires Valid() && running && Possible(turn)
      modifies this, receiver.Repr(), sender.Repr()
      ensures Valid() && fresh(receiver.Repr() - old(receiver.Repr())) && sender.accepted == old(sender.accepted)
      ensures receiver.Stream() == old(receiver.Stream()) + Incoming(turn)
      ensures sender.sent == old(sender.sent) + Outgoing(turn, old(sender.HasWork()), old(sender.Next()))
      ensures var doOut := old(sender.HasWork());
              && (!Closes(turn, doOut) ==> errorCount == if Fails(turn, doOut) then old(errorCount) + 1 else 0)
              && (running <==> !Closes(turn, doOut) && !(Fails(turn, doOut) && errorCount >= maxError))
    {
      hide Receiver.Valid, Sender.Valid, Receiver.Stream, Closes, Fails;
      var closed, failed := Poll(turn);
      if closed {
        running := false;
        return;
      }
      CountError(failed, maxError);
    }
  }
}
