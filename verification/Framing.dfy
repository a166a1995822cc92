/** The wire format of packets, decoded one byte at a time: the reference the receive buffer is checked against. */
module Framing {
  import opened Words

  newtype Byte = x: int | 0 <= x < 256

  type Bytes = seq<Byte>

  /** The four bytes of a 32-bit number, most significant first. */
  function BigEndian(n: nat): (h: Bytes)
    requires n <= MAX_U32
    ensures |h| == 4
  {
    [(n / 0x100_0000) as Byte, (n / 0x1_0000 % 0x100) as Byte, (n / 0x100 % 0x100) as Byte, (n % 0x100) as Byte]
  }

  /** A 32-bit load on a little-endian machine. */
  function LoadWord(h: Bytes): (n: nat)
    requires |h| == 4
    ensures n <= MAX_U32
  {
    h[0] as int + h[1] as int * 0x100 + h[2] as int * 0x1_0000 + h[3] as int * 0x100_0000
  }

  function StoreWord(n: nat): (h: Bytes)
    requires n <= MAX_U32
    ensures |h| == 4
  {
    [(n % 0x100) as Byte, (n / 0x100 % 0x100) as Byte, (n / 0x1_0000 % 0x100) as Byte, (n / 0x100_0000) as Byte]
  }

  /** The masks and shifts that swap the bytes of a word. */
  function SwapBytes(n: nat): (r: nat)
    requires n <= MAX_U32
    ensures r <= MAX_U32
  {
    (n % 0x100) * 0x100_0000 + (n / 0x100 % 0x100) * 0x1_0000 + (n / 0x1_0000 % 0x100) * 0x100 + n / 0x100_0000
  }

  /** What `finalize` stores and what `readyRead` loads are both big-endian. */
  lemma SwapIsBigEndian(n: nat)
    requires n <= MAX_U32
    ensures StoreWord(SwapBytes(n)) == BigEndian(n)
    ensures SwapBytes(LoadWord(BigEndian(n))) == n
  {
    hide SwapBytes, StoreWord;
    var a, b, c, d := n / 0x100_0000, n / 0x1_0000 % 0x100, n / 0x100 % 0x100, n % 0x100;
    DigitsOfWord(n);
    SwapDigits(a, b, c, d);
    SwapDigits(d, c, b, a);
    assert LoadWord(BigEndian(n)) == Word(d, c, b, a);
  }

  function Word(a: nat, b: nat, c: nat, d: nat): nat {
    a * 0x100_0000 + b * 0x1_0000 + c * 0x100 + d
  }

  lemma By100(q: nat, r: nat)
    requires r < 0x100
    ensures (q * 0x100 + r) / 0x100 == q && (q * 0x100 + r) % 0x100 == r
  {
  }

  lemma By10000(q: nat, r: nat)
    requires r < 0x1_0000
    ensures (q * 0x1_0000 + r) / 0x1_0000 == q
  {
  }

  lemma By1000000(q: nat, r: nat)
    requires r < 0x100_0000
    ensures (q * 0x100_0000 + r) / 0x100_0000 == q
  {
  }

  lemma WordDigits(a: nat, b: nat, c: nat, d: nat)
    requires a < 0x100 && b < 0x100 && c < 0x100 && d < 0x100
    ensures var n := Word(a, b, c, d);
            && n <= MAX_U32 && n / 0x100_0000 == a && n / 0x1_0000 % 0x100 == b
            && n / 0x100 % 0x100 == c && n % 0x100 == d
  {
    var n := Word(a, b, c, d);
    By1000000(a, b * 0x1_0000 + c * 0x100 + d);
    By10000(a * 0x100 + b, c * 0x100 + d);
    By100(a * 0x1_0000 + b * 0x100 + c, d);
    By100(a, b);
    By100(a * 0x100 + b, c);
  }

  lemma SwapDigits(a: nat, b: nat, c: nat, d: nat)
    requires a < 0x100 && b < 0x100 && c < 0x100 && d < 0x100
    ensures Word(a, b, c, d) <= MAX_U32 && SwapBytes(Word(a, b, c, d)) == Word(d, c, b, a)
    ensures StoreWord(Word(a, b, c, d)) == [d as Byte, c as Byte, b as Byte, a as Byte]
  {
    WordDigits(a, b, c, d);
  }

  lemma DigitsOfWord(n: nat)
    requires n <= MAX_U32
    ensures n / 0x100_0000 < 0x100
    ensures n == Word(n / 0x100_0000, n / 0x1_0000 % 0x100, n / 0x100 % 0x100, n % 0x100)
  {
    var q, r := n / 0x100, n % 0x100;
    var q', r' := q / 0x100, q % 0x100;
    var q'', r'' := q' / 0x100, q' % 0x100;
    assert n == q * 0x100 + r && q == q' * 0x100 + r' && q' == q'' * 0x100 + r'';
    WordDigits(q'', r'', r', r);
  }

  // Decoding.

  /** Between two bytes: inside a length prefix, or inside a payload of known size. */
  datatype Rx = Prefix(part: Bytes) | Payload(size: nat, got: Bytes)

  const START := Prefix([])

  /** One byte; a payload comes out when it is complete. Lengths up to 4 announce nothing. */
  function Feed(st: Rx, b: Byte): (Rx, seq<Bytes>) {
    match st
    case Prefix(part) =>
      var part' := part + [b];
      if |part'| != 4 then (Prefix(part'), [])
      else if SwapBytes(LoadWord(part')) > 4 then (Payload(SwapBytes(LoadWord(part')) - 4, []), [])
      else (START, [])
    case Payload(size, got) =>
      if |got| + 1 < size then (Payload(size, got + [b]), []) else (START, [got + [b]])
  }

  function FeedAll(st: Rx, s: Bytes): (Rx, seq<Bytes>)
    decreases s
  {
    if s == [] then (st, [])
    else
      var (st1, out1) := Feed(st, s[0]);
      var (st2, out2) := FeedAll(st1, s[1..]);
      (st2, out1 + out2)
  }

  /** Decoding does not depend on how the stream is cut. */
  lemma {:induction false} FeedAllSplit(st: Rx, a: Bytes, b: Bytes)
    ensures FeedAll(st, a + b) == var (st1, out1) := FeedAll(st, a); var (st2, out2) := FeedAll(st1, b);
            (st2, out1 + out2)
    decreases a
  {
    if a == [] {
      assert a + b == b;
      assert [] + FeedAll(st, b).1 == FeedAll(st, b).1;
    } else {
      hide Feed, FeedAll;
      var (st1, out1) := Feed(st, a[0]);
      var (st2, out2) := FeedAll(st1, a[1..]);
      FeedAllSplit(st1, a[1..], b);
      assert (a + b)[1..] == a[1..] + b;
      FeedAllFirst(st, a);
      FeedAllFirst(st, a + b);
      Regroup(out1, out2, FeedAll(st2, b).1);
    }
  }

  lemma FeedAllFirst(st: Rx, s: Bytes)
    requires s != []
    ensures FeedAll(st, s)
         == var (st1, out1) := Feed(st, s[0]); var (st2, out2) := FeedAll(st1, s[1..]); (st2, out1 + out2)
  {
    hide Feed;
  }

  lemma Regroup<T>(a: seq<T>, b: seq<T>, c: seq<T>)
    ensures (a + b) + c == a + (b + c)
  {
  }

  lemma FeedSingle(st: Rx, b: Byte)
    ensures FeedAll(st, [b]) == Feed(st, b)
  {
    hide Feed;
    assert Feed(st, b).1 + [] == Feed(st, b).1;
  }

  /** Where the first byte completes nothing. */
  lemma FeedFirst(st: Rx, s: Bytes)
    requires s != [] && Feed(st, s[0]).1 == []
    ensures FeedAll(st, s) == FeedAll(Feed(st, s[0]).0, s[1..])
  {
    hide Feed;
    var out := FeedAll(Feed(st, s[0]).0, s[1..]).1;
    assert [] + out == out;
  }

  predicate Reachable(st: Rx) {
    match st case Prefix(part) => |part| < 4 case Payload(size, got) => |got| < size
  }

  lemma {:induction false} ReachableKept(st: Rx, s: Bytes)
    requires Reachable(st)
    ensures Reachable(FeedAll(st, s).0)
    ensures forall i :: 0 <= i < |FeedAll(st, s).1| ==> FeedAll(st, s).1[i] != []
    decreases s
  {
    if s != [] {
      ReachableKept(Feed(st, s[0]).0, s[1..]);
    }
  }

  /** A piece of a length prefix that does not complete it. */
  lemma {:induction false} FeedPart(part: Bytes, s: Bytes)
    requires |part| + |s| < 4
    ensures FeedAll(Prefix(part), s) == (Prefix(part + s), [])
    decreases s
  {
    if s == [] {
      assert part + s == part;
    } else {
      FeedFirst(Prefix(part), s);
      FeedPart(part + [s[0]], s[1..]);
      assert (part + [s[0]]) + s[1..] == part + s;
    }
  }

  /** A whole length prefix at once. */
  lemma FeedPrefix(h: Bytes)
    requires |h| == 4
    ensures FeedAll(START, h) == var n := SwapBytes(LoadWord(h)); (if n > 4 then Payload(n - 4, []) else START, [])
  {
    hide SwapBytes, LoadWord, FeedAll;
    FeedPart([], h[..3]);
    assert [] + h[..3] == h[..3] && h[..3] + [h[3]] == h;
    FeedAllSplit(START, h[..3], [h[3]]);
    FeedSingle(Prefix(h[..3]), h[3]);
    assert [] + Feed(Prefix(h[..3]), h[3]).1 == Feed(Prefix(h[..3]), h[3]).1;
  }

  /** A piece of a payload at once. */
  lemma {:induction false} FeedPayload(size: nat, got: Bytes, s: Bytes)
    requires |got| + |s| <= size && |got| < size
    ensures FeedAll(Payload(size, got), s)
         == if |got| + |s| < size then (Payload(size, got + s), []) else (START, [got + s])
    decreases s
  {
    if s == [] {
      assert got + s == got;
    } else if |s| == 1 {
      assert s == [s[0]];
      FeedSingle(Payload(size, got), s[0]);
    } else {
      hide FeedAll;
      FeedFirst(Payload(size, got), s);
      FeedPayload(size, got + [s[0]], s[1..]);
      assert (got + [s[0]]) + s[1..] == got + s;
    }
  }

  // Frames.

  function Frame(payload: Bytes): (f: Bytes)
    requires |payload| + 4 <= MAX_U32
    ensures |f| == |payload| + 4
  {
    BigEndian(|payload| + 4) + payload
  }

  /** The size of the whole frame, most significant byte first, and then the payload. */
  lemma FrameLayout(payload: Bytes)
    requires |payload| + 4 <= MAX_U32
    ensures var f := Frame(payload);
            && f[0] as int * 0x100_0000 + f[1] as int * 0x1_0000 + f[2] as int * 0x100 + f[3] as int == |payload| + 4
            && f[4..] == payload
  {
    DigitsOfWord(|payload| + 4);
  }

  predicate Sendable(payloads: seq<Bytes>) {
    forall i :: 0 <= i < |payloads| ==> |payloads[i]| + 4 <= MAX_U32
  }

  function Frames(payloads: seq<Bytes>): Bytes
    requires Sendable(payloads)
  {
    if payloads == [] then [] else Frame(payloads[0]) + Frames(payloads[1..])
  }

  /** Empty packets leave no trace at the receiver. */
  function NonEmpty(payloads: seq<Bytes>): seq<Bytes> {
    if payloads == [] then []
    else (if payloads[0] == [] then [] else [payloads[0]]) + NonEmpty(payloads[1..])
  }

  lemma FeedFrame(payload: Bytes, k: nat)
    requires |payload| + 4 <= MAX_U32 && k <= |payload| + 4
    ensures var (st, out) := FeedAll(START, Frame(payload)[..k]);
            if k < |payload| + 4 then out == [] else st == START && out == if payload == [] then [] else [payload]
  {
    hide SwapBytes, LoadWord, BigEndian, FeedAll;
    var f := Frame(payload);
    if k < 4 {
      FeedPart([], f[..k]);
    } else {
      var h, body := f[..4], payload[..k - 4];
      assert f[..k] == h + body && h == BigEndian(|payload| + 4);
      FeedAllSplit(START, h, body);
      FeedPrefix(h);
      SwapIsBigEndian(|payload| + 4);
      if payload == [] {
        assert body == [] && FeedAll(START, []) == (START, []) by { FeedNothing(START); }
      } else {
        FeedPayload(|payload|, [], body);
        assert [] + body == body && (k == |payload| + 4 ==> body == payload);
      }
    }
  }

  lemma FeedNothing(st: Rx)
    ensures FeedAll(st, []) == (st, [])
  {
  }

  /** Whatever part of the frames has arrived, the payloads decoded from it are the first of the non-empty ones sent. */
  lemma {:induction false} DecodedIsPrefix(payloads: seq<Bytes>, received: Bytes)
    requires Sendable(payloads) && received <= Frames(payloads)
    ensures FeedAll(START, received).1 <= NonEmpty(payloads)
    ensures received == Frames(payloads) ==> FeedAll(START, received) == (START, NonEmpty(payloads))
    decreases payloads
  {
    if payloads != [] {
      hide FeedAll, Frame;
      var f, rest := Frame(payloads[0]), Frames(payloads[1..]);
      assert Frames(payloads) == f + rest;
      if |received| < |f| {
        assert received == f[..|received|];
        FeedFrame(payloads[0], |received|);
      } else {
        var others := received[|f|..];
        assert received == f + others && others <= rest;
        assert f[..|f|] == f;
        FeedFrame(payloads[0], |f|);
        FeedAllSplit(START, f, others);
        DecodedIsPrefix(payloads[1..], others);
        assert received == Frames(payloads) ==> others == rest;
        assert [] + FeedAll(START, others).1 == FeedAll(START, others).1;
        assert [] + NonEmpty(payloads[1..]) == NonEmpty(payloads[1..]);
      }
    }
  }

  lemma {:induction false} FramesAppend(payloads: seq<Bytes>, p: Bytes)
    requires Sendable(payloads) && |p| + 4 <= MAX_U32
    ensures Sendable(payloads + [p]) && Frames(payloads + [p]) == Frames(payloads) + Frame(p)
    decreases payloads
  {
    if payloads == [] {
      assert payloads + [p] == [p] && Frames([p][1..]) == [];
    } else {
      FramesAppend(payloads[1..], p);
      assert (payloads + [p])[1..] == payloads[1..] + [p];
    }
  }
}
