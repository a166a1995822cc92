/** include/mgpcl/Queue.h: a bounded queue over two buffers, the second used when the first runs off its end. */
module Queue {

  class Queue<T(0)> {
    var backlog: nat
    var size: nat
    var pos: nat
    var data: array<T>
    var buffer: array<T>

    ghost predicate Valid()
      reads this
    {
      && data != buffer && data.Length == backlog && buffer.Length == backlog
      && pos + size <= backlog
      && (size == 0 ==> pos == 0)
    }

    ghost function Contents(): (s: seq<T>)
      reads this, data
      requires Valid()
      ensures |s| == size
    {
      data[pos..pos + size]
    }

    ghost function Repr(): set<object>
      reads this
    {
      {this, data, buffer}
    }

    constructor (bl: nat)
      ensures Valid() && Contents() == [] && backlog == bl && fresh(Repr())
    {
      backlog, size, pos := bl, 0, 0;
      data := new T[bl];
      buffer := new T[bl];
    }

    /** `moveData`, element by element. */
    static method MoveData(dst: array<T>, src: array<T>, first: nat, sz: nat)
      requires dst != src && sz <= dst.Length && first + sz <= src.Length
      modifies dst
      ensures dst[..sz] == src[first..first + sz]
    {
      for i := 0 to sz
        invariant dst[..i] == src[first..first + i]
      {
        dst[i] := src[first + i];
      }
    }

    /** The first buffer has no cell left after its last element: carry on in the other one, from the start. */
    method SwapBuffers()
      requires Valid()
      modifies this, buffer
      ensures Valid() && pos == 0 && size == old(size) && backlog == old(backlog)
      ensures data == old(buffer) && buffer == old(data)
      ensures Contents() == old(Contents())
    {
      MoveData(buffer, data, pos, size);
      data, buffer := buffer, data;
      pos := 0;
    }

    method Append(o: T)
      requires Valid() && pos + size < backlog
      modifies this`size, data
      ensures Valid() && Contents() == old(Contents()) + [o]
    {
      data[pos + size] := o;
      size := size + 1;
    }

    method Offer(o: T) returns (ok: bool)
      requires Valid()
      modifies this, data, buffer
      ensures Valid() && backlog == old(backlog) && Repr() == old(Repr())
      ensures ok <==> |old(Contents())| < backlog
      ensures Contents() == if ok then old(Contents()) + [o] else old(Contents())
    {
      if size >= backlog {
        return false;
      }
      if pos + size >= backlog {
        SwapBuffers();
      }
      Append(o);
      ok := true;
    }

    /** New buffers; the old position is dropped only if there is something to move. */
    method Reallocate(bl: nat)
      requires Valid() && bl >= size
      modifies this
      ensures Valid() && backlog == bl && fresh(data) && fresh(buffer) && Contents() == old(Contents())
    {
      var nptr := new T[bl];
      if size > 0 {
        MoveData(nptr, data, pos, size);
        pos := 0;
      }
      backlog := bl;
      data := nptr;
      buffer := new T[bl];
    }

    /** Grows by half when full, which makes room from a backlog of 2 on. A full queue starts at position 0, so the
        position can stay. */
    method OfferEx(o: T)
      requires Valid() && (backlog >= 2 || size < backlog)
      modifies this, data, buffer
      ensures Valid() && fresh(Repr() - old(Repr()))
      ensures Contents() == old(Contents()) + [o]
      ensures backlog == if |old(Contents())| == old(backlog) then old(backlog) + old(backlog) / 2 else old(backlog)
    {
      if size >= backlog {
        assert pos == 0;
        var nptr := new T[backlog + backlog / 2];
        MoveData(nptr, data, pos, size);
        backlog := backlog + backlog / 2;
        data := nptr;
        buffer := new T[backlog];
      }
      if pos + size >= backlog {
        SwapBuffers();
      }
      Append(o);
    }

    function First(): T
      reads this, data
      requires Valid() && size > 0
      ensures First() == Contents()[0]
    {
      data[pos]
    }

    method Poll() returns (ok: bool)
      requires Valid()
      modifies this`size, this`pos
      ensures Valid()
      ensures ok <==> old(Contents()) != []
      ensures Contents() == if ok then old(Contents())[1..] else []
    {
      if size == 0 {
        return false;
      }
      size := size - 1;
      if size == 0 {
        pos := 0;
      } else {
        pos := pos + 1;
      }
      ok := true;
    }

    method Clear()
      requires Valid()
      modifies this`size, this`pos
      ensures Valid() && Contents() == []
    {
      size := 0;
      pos := 0;
    }

    method SetBacklog(bl: nat)
      requires Valid() && bl >= 2 && bl >= size
      modifies this
      ensures Valid() && backlog == bl && Contents() == old(Contents()) && fresh(Repr() - old(Repr()))
    {
      Reallocate(bl);
    }
  }

  // Whole histories.

  datatype Op<T> = OfferOp(o: T) | OfferExOp(o: T) | PollOp | ClearOp | SetBacklogOp(bl: nat)

  /** A bounded queue as a plain sequence. */
  datatype Model<T> = Model(backlog: nat, items: seq<T>)

  function Step<T>(m: Model<T>, op: Op<T>): Model<T> {
    match op
    case OfferOp(o) => if |m.items| < m.backlog then m.(items := m.items + [o]) else m
    case OfferExOp(o) => Model(if |m.items| == m.backlog then m.backlog + m.backlog / 2 else m.backlog, m.items + [o])
    case PollOp => if m.items == [] then m else m.(items := m.items[1..])
    case ClearOp => m.(items := [])
    case SetBacklogOp(bl) => m.(backlog := bl)
  }

  /** A call the queue accepts: no backlog is set below 2 or below the current size, and a full queue with room for
      less than two elements is not asked to grow by half. */
  predicate Accepts<T>(m: Model<T>, op: Op<T>) {
    && (op.SetBacklogOp? ==> op.bl >= 2 && op.bl >= |m.items|)
    && (op.OfferExOp? ==> m.backlog >= 2 || |m.items| < m.backlog)
  }

  predicate Allowed<T>(m: Model<T>, ops: seq<Op<T>>)
    decreases ops
  {
    ops == [] || (Accepts(m, ops[0]) && Allowed(Step(m, ops[0]), ops[1..]))
  }

  function Run<T>(m: Model<T>, ops: seq<Op<T>>): Model<T>
    decreases ops
  {
    if ops == [] then m else Run(Step(m, ops[0]), ops[1..])
  }

  method Apply<T(0)>(q: Queue<T>, op: Op<T>)
    requires q.Valid() && Accepts(Model(q.backlog, q.Contents()), op)
    modifies q.Repr()
    ensures q.Valid() && fresh(q.Repr() - old(q.Repr()))
    ensures Model(q.backlog, q.Contents()) == Step(old(Model(q.backlog, q.Contents())), op)
  {
    match op {
      case OfferOp(o) => var ok := q.Offer(o);
      case OfferExOp(o) => q.OfferEx(o);
      case PollOp => var ok := q.Poll();
      case ClearOp => q.Clear();
      case SetBacklogOp(b) => q.SetBacklog(b);
    }
  }

  /** Over any history the double buffer is the plain sequence. */
  method Replay<T(0)>(bl: nat, ops: seq<Op<T>>) returns (q: Queue<T>)
    requires Allowed(Model(bl, []), ops)
    ensures fresh(q) && q.Valid() && Model(q.backlog, q.Contents()) == Run(Model(bl, []), ops)
  {
    hide Step;
    q := new Queue<T>(bl);
    for i := 0 to |ops|
      invariant fresh(q.Repr()) && q.Valid()
      invariant Allowed(Model(q.backlog, q.Contents()), ops[i..])
      invariant Run(Model(q.backlog, q.Contents()), ops[i..]) == Run(Model(bl, []), ops)
    {
      assert ops[i..][1..] == ops[i + 1..];
      Apply(q, ops[i]);
    }
  }

  /** And the plain sequence stays within its bound. */
  lemma {:induction false} BoundKept<T>(m: Model<T>, ops: seq<Op<T>>)
    requires |m.items| <= m.backlog && Allowed(m, ops)
    ensures |Run(m, ops).items| <= Run(m, ops).backlog
    decreases ops
  {
    if ops != [] {
      BoundKept(Step(m, ops[0]), ops[1..]);
    }
  }
}
