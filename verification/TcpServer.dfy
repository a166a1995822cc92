/** src/TCPServer.cpp: one client of the server, driven by the server's select loop. */
module TcpServer {
  import opened Packet
  import Queue
  import opened Transport

  class TcpServerClient {
    const receiver: Receiver
    const sender: Sender
    var errorCount: nat
    var disconnected: bool

    ghost predicate Valid()
      reads this, receiver, receiver.Repr(), sender, sender.Repr()
    {
      && receiver.Valid() && sender.Valid()
      && receiver.Repr() !! sender.Repr() && this !in receiver.Repr() + sender.Repr()
    }

    constructor (rule: FillRule)
      ensures Valid() && errorCount == 0 && !disconnected
      ensures receiver.Stream() == [] && sender.sent == []
    {
      hide Receiver.Valid, Sender.Valid, Receiver.Stream, Receiver.Core, Receiver.Apart, Sender.Current;
      hide Queue.Queue.Contents, Queue.Queue.Valid;
      receiver := new Receiver(rule);
      sender := new Sender();
      errorCount := 0;
      disconnected := false;
      new;
      assert this !in receiver.Repr() + sender.Repr();
      assert receiver.Repr() !! sender.Repr();
    }

    /** Answers whether the client is to be removed: it closed, or its errors since it connected reached the maximum. */
    method ReadyRead(r: RecvResult, maxError: nat) returns (remove: bool)
      requires Valid() && (r.Received? ==> 0 < |r.chunk| <= BUFFER_SIZE - receiver.rPos)
      modifies this, receiver.Repr()
      ensures Valid() && fresh(receiver.Repr() - old(receiver.Repr()))
      ensures receiver.Stream() == old(receiver.Stream()) + (if r.Received? then r.chunk else [])
      ensures disconnected == (old(disconnected) || r.RecvClosed?)
      ensures errorCount == old(errorCount) + (if r == RecvFailed(false) then 1 else 0)
      ensures remove <==> r.RecvClosed? || (r == RecvFailed(false) && errorCount >= maxError)
    {
      hide Receiver.Core, Sender.Valid;
      if r.Received? {
        receiver.Ingest(r.chunk);
      } else if r.RecvClosed? {
        disconnected := true;
        return true;
      } else if !r.wouldBlock {
        errorCount := errorCount + 1;
        if errorCount >= maxError {
          return true;
        }
      }
      return false;
    }

    /** The same for a socket ready to send; `send` takes some of what it is given, and at least one byte. */
    method ReadyWrite(w: SendResult, maxError: nat) returns (remove: bool)
      requires Valid() && (w.Sent? && sender.sPkt.FPacket? ==> 0 < w.n <= |sender.Current()|)
      modifies this, sender
      ensures Valid() && sender.accepted == old(sender.accepted)
      ensures sender.sent == old(sender.sent + if w.Sent? && sender.sPkt.FPacket? then sender.Current()[..w.n] else [])
      ensures old(sender.sPkt).Invalid? ==>
              !remove && errorCount == old(errorCount) && disconnected == old(disconnected)
      ensures old(sender.sPkt).FPacket? ==>
                && disconnected == (old(disconnected) || w.SendClosed?)
                && errorCount == old(errorCount) + (if w == SendFailed(false) then 1 else 0)
                && (remove <==> w.SendClosed? || (w == SendFailed(false) && errorCount >= maxError))
    {
      hide Receiver.Valid, Sender.Valid;
      remove := false;
      if sender.sPkt.FPacket? {
        if w.Sent? {
          sender.Took(w.n);
        } else if w.SendClosed? {
          disconnected := true;
          remove := true;
        } else if !w.wouldBlock {
          errorCount := errorCount + 1;
          remove := errorCount >= maxError;
        }
      }
    }
  }
}
