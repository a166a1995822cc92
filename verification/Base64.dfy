/** src/Util.cpp: Base64, as section 4 of RFC 4648 has it; the decoder accepts more than the encoder writes. */
module Base64 {
  import opened Words

  type Byte = n: nat | n < 256

  function Letter(v: nat): char
    requires v < 64
  {
    if v < 26 then ('A' as int + v) as char
    else if v < 52 then ('a' as int + (v - 26)) as char
    else if v < 62 then ('0' as int + (v - 52)) as char
    else if v == 62 then '+'
    else '/'
  }

  /** The six bits a letter stands for, or -1. */
  function Value(c: char): (v: int)
    ensures -1 <= v < 64
  {
    if 'A' <= c <= 'Z' then c as int - 'A' as int
    else if 'a' <= c <= 'z' then c as int - 'a' as int + 26
    else if '0' <= c <= '9' then c as int - '0' as int + 52
    else if c == '+' then 62
    else if c == '/' then 63
    else -1
  }

  lemma ValueOfLetter(v: nat)
    requires v < 64
    ensures Value(Letter(v)) == v && Letter(v) != '='
  {
  }

  // Encoding.

  function Four(a: nat, b: nat, c: nat, d: nat): (s: string)
    requires a < 64 && b < 64 && c < 64 && d < 64
    ensures |s| == 4
  {
    [Letter(a), Letter(b), Letter(c), Letter(d)]
  }

  function Three(x: Byte, y: Byte, z: Byte): (s: string)
    ensures |s| == 4
  {
    var pack := x * 0x1_0000 + y * 0x100 + z;
    Four(pack / 0x4_0000, pack / 0x1000 % 64, pack / 64 % 64, pack % 64)
  }

  function Two(x: Byte, y: Byte): (s: string)
    ensures |s| == 4
  {
    var pack := x * 0x400 + y * 4;
    [Letter(pack / 0x1000), Letter(pack / 64 % 64), Letter(pack % 64), '=']
  }

  function One(x: Byte): (s: string)
    ensures |s| == 4
  {
    var pack := x * 16;
    [Letter(pack / 64), Letter(pack % 64), '=', '=']
  }

  function Encoded(data: seq<Byte>): string {
    if data == [] then ""
    else if |data| == 1 then One(data[0])
    else if |data| == 2 then Two(data[0], data[1])
    else Three(data[0], data[1], data[2]) + Encoded(data[3..])
  }

  lemma {:induction false} EncodedLength(data: seq<Byte>)
    ensures |Encoded(data)| == (|data| + 2) / 3 * 4
  {
    hide Three, Two, One;
    if |data| >= 3 {
      EncodedLength(data[3..]);
    }
  }

  lemma NextTriple(i: nat)
    requires i % 3 == 0
    ensures (i + 3) % 3 == 0
  {
  }

  /** What is left when less than three bytes are. */
  lemma EncodedRest(data: seq<Byte>, i: nat, dst: string)
    requires i <= |data| < i + 3 && i % 3 == 0
    ensures |data| % 3 == |data| - i
    ensures dst + Encoded(data[i..]) == if |data| - i == 2 then dst + Two(data[i], data[i + 1])
                                        else if |data| - i == 1 then dst + One(data[i]) else dst
  {
    hide Three, Two, One;
    var q := i / 3;
    assert i == 3 * q && |data| == 3 * q + (|data| - i);
    assert dst + "" == dst;
  }

  lemma EncodedNext(data: seq<Byte>, i: nat, dst: string)
    requires i + 2 < |data|
    ensures dst + Encoded(data[i..]) == (dst + Three(data[i], data[i + 1], data[i + 2])) + Encoded(data[i + 3..])
  {
    hide Three, Two, One;
    assert data[i..][3..] == data[i + 3..];
  }

  method Encode(data: seq<Byte>, before: string) returns (dst: string)
    ensures dst == before + Encoded(data)
  {
    hide Three, Two, One, Encoded;
    dst := before;
    var i := 0;
    while i + 2 < |data|
      invariant 0 <= i <= |data| && i % 3 == 0
      invariant dst + Encoded(data[i..]) == before + Encoded(data)
    {
      EncodedNext(data, i, dst);
      NextTriple(i);
      dst := dst + Three(data[i], data[i + 1], data[i + 2]);
      i := i + 3;
    }
    EncodedRest(data, i, dst);
    if |data| % 3 == 2 {
      dst := dst + Two(data[i], data[i + 1]);
    } else if |data| % 3 == 1 {
      dst := dst + One(data[i]);
    }
  }

  lemma Capitals(v: nat)
    requires v < 26
    ensures Letter(v) == "ABCDEFGHIJKLMNOPQRSTUVWXYZ"[v]
  {
  }

  lemma SmallLetters(v: nat)
    requires v < 26
    ensures Letter(26 + v) == "abcdefghijklmnopqrstuvwxyz"[v]
  {
  }

  lemma DigitsAndMarks(v: nat)
    requires v < 12
    ensures Letter(52 + v) == "0123456789+/"[v]
  {
  }

  /** The alphabet of section 4 of RFC 4648. */
  lemma Alphabet(v: nat)
    requires v < 64
    ensures Letter(v) == ("ABCDEFGHIJKLMNOPQRSTUVWXYZ" + "abcdefghijklmnopqrstuvwxyz" + "0123456789+/")[v]
    ensures Value(("ABCDEFGHIJKLMNOPQRSTUVWXYZ" + "abcdefghijklmnopqrstuvwxyz" + "0123456789+/")[v]) == v
  {
    hide Letter, Value;
    ValueOfLetter(v);
    if v < 26 {
      Capitals(v);
    } else if v < 52 {
      SmallLetters(v - 26);
    } else {
      DigitsAndMarks(v - 52);
    }
  }

  function ByteAt(data: seq<Byte>, i: nat): Byte {
    if i < |data| then data[i] else 0
  }

  /** Each character stands for six bits: of three bytes, the first six, the next six across the first two, then across
      the last two, and the last six. Bits past the end are zero, and characters past them are padding. */
  lemma {:induction false} EncodedBits(data: seq<Byte>, i: nat)
    requires 3 * i < |data|
    ensures var s, a, b, c := Encoded(data), ByteAt(data, 3 * i), ByteAt(data, 3 * i + 1), ByteAt(data, 3 * i + 2);
            && |s| >= 4 * i + 4
            && s[4 * i] == Letter(a / 4)
            && s[4 * i + 1] == Letter(a % 4 * 16 + b / 16)
            && s[4 * i + 2] == (if 3 * i + 1 < |data| then Letter(b % 16 * 4 + c / 64) else '=')
            && s[4 * i + 3] == (if 3 * i + 2 < |data| then Letter(c % 64) else '=')
  {
    hide Letter, One, Two, Three;
    if i > 0 {
      EncodedBits(data[3..], i - 1);
      assert forall k :: 3 <= k ==> ByteAt(data[3..], k - 3) == ByteAt(data, k);
    } else if |data| >= 3 {
      ThreeBits(data[0], data[1], data[2]);
    } else if |data| == 2 {
      TwoBits(data[0], data[1]);
    } else {
      OneBits(data[0]);
    }
  }

  lemma ThreeBits(x: Byte, y: Byte, z: Byte)
    ensures Three(x, y, z) == [Letter(x / 4), Letter(x % 4 * 16 + y / 16), Letter(y % 16 * 4 + z / 64), Letter(z % 64)]
  {
    hide Letter;
    SixBits(x, y, z);
  }

  /** Four digits in base 64. */
  lemma Base64Digits(a: nat, b: nat, c: nat, d: nat)
    requires b < 64 && c < 64 && d < 64
    ensures var pack := ((a * 64 + b) * 64 + c) * 64 + d;
            pack % 64 == d && pack / 64 % 64 == c && pack / 0x1000 % 64 == b && pack / 0x4_0000 == a
    ensures var pack := (a * 64 + b) * 64 + c; pack % 64 == c && pack / 64 % 64 == b && pack / 0x1000 == a
  {
    var e := a * 64 + b;
    var f := e * 64 + c;
    Div64(a, b);
    Div64(e, c);
    Div64(f, d);
    By1000(e, c * 64 + d);
    By1000(a, b * 64 + c);
    By40000(a, b * 0x1000 + c * 64 + d);
  }

  lemma Div64(q: nat, r: nat)
    requires r < 64
    ensures (q * 64 + r) / 64 == q && (q * 64 + r) % 64 == r
  {
  }

  lemma By40000(q: nat, r: nat)
    requires r < 0x4_0000
    ensures (q * 0x4_0000 + r) / 0x4_0000 == q
  {
  }

  lemma SixBits(x: Byte, y: Byte, z: Byte)
    ensures var pack := x * 0x1_0000 + y * 0x100 + z;
            && pack / 0x4_0000 == x / 4 && pack / 0x1000 % 64 == x % 4 * 16 + y / 16
            && pack / 64 % 64 == y % 16 * 4 + z / 64 && pack % 64 == z % 64
  {
    var x1, x0, y1, y0, z1, z0 := x / 4, x % 4, y / 16, y % 16, z / 64, z % 64;
    assert x == 4 * x1 + x0 && y == 16 * y1 + y0 && z == 64 * z1 + z0;
    Base64Digits(x1, x0 * 16 + y1, y0 * 4 + z1, z0);
    assert x * 0x1_0000 + y * 0x100 + z == ((x1 * 64 + (x0 * 16 + y1)) * 64 + (y0 * 4 + z1)) * 64 + z0;
  }

  lemma TwoBits(x: Byte, y: Byte)
    ensures Two(x, y) == [Letter(x / 4), Letter(x % 4 * 16 + y / 16), Letter(y % 16 * 4), '=']
  {
    hide Letter;
    var x1, x0, y1, y0 := x / 4, x % 4, y / 16, y % 16;
    assert x == 4 * x1 + x0 && y == 16 * y1 + y0;
    Base64Digits(x1, x0 * 16 + y1, y0 * 4, 0);
    assert x * 0x400 + y * 4 == (x1 * 64 + (x0 * 16 + y1)) * 64 + y0 * 4;
  }

  lemma OneBits(x: Byte)
    ensures One(x) == [Letter(x / 4), Letter(x % 4 * 16), '=', '=']
  {
    hide Letter;
    assert x * 16 == x / 4 * 64 + x % 4 * 16;
  }

  // Decoding.

  /** How many padding characters end the string. */
  function Pads(s: string): (n: nat)
    ensures n <= |s|
  {
    if s == "" || s[|s| - 1] != '=' then 0 else 1 + Pads(s[..|s| - 1])
  }

  /** What comes before the first padding character. */
  function Body(s: string): (b: string)
    ensures b <= s && (|b| < |s| ==> s[|b|] == '=') && '=' !in b
  {
    if s == "" || s[0] == '=' then "" else [s[0]] + Body(s[1..])
  }

  predicate Lettered(s: string) {
    forall i :: 0 <= i < |s| ==> Value(s[i]) >= 0
  }

  /** The bits gathered from up to four letters. */
  function Bits(s: string): (b: nat)
    requires |s| <= 4 && Lettered(s)
    ensures b < 0x100_0000
  {
    (if |s| > 0 then Value(s[0]) * 0x4_0000 else 0) + (if |s| > 1 then Value(s[1]) * 0x1000 else 0)
    + (if |s| > 2 then Value(s[2]) * 64 else 0) + (if |s| > 3 then Value(s[3]) else 0)
  }

  function High(b: nat): Byte
    requires b < 0x100_0000
  {
    b / 0x1_0000
  }

  function Mid(b: nat): Byte {
    b / 0x100 % 0x100
  }

  function Low(b: nat): Byte {
    b % 0x100
  }

  function Group(s: string): (g: seq<Byte>)
    requires |s| == 4 && Lettered(s)
    ensures |g| == 3
  {
    var b := Bits(s);
    [High(b), Mid(b), Low(b)]
  }

  /** The whole groups of four letters. */
  function Groups(s: string): (g: seq<Byte>)
    requires Lettered(s)
    ensures |g| == |s| / 4 * 3
  {
    if |s| < 4 then [] else Group(s[..4]) + Groups(s[4..])
  }

  function Tail(bits: nat, pads: nat): (t: seq<Byte>)
    requires bits < 0x100_0000
    ensures |t| == if pads == 1 then 2 else if pads == 2 then 1 else 0
  {
    if pads == 1 then [High(bits), Mid(bits)] else if pads == 2 then [High(bits)] else []
  }

  predicate Accepted(s: string) {
    |s| % 4 == 0 && Pads(s) <= 2 && Lettered(Body(s))
  }

  function Decoded(s: string): seq<Byte>
    requires Accepted(s)
  {
    var b := Body(s);
    Groups(b) + Tail(Bits(b[|b| / 4 * 4..]), Pads(s))
  }

  /** What the decoder asks the caller to make room for. */
  function Estimated(s: string): int {
    |s| * 3 / 4 - Pads(s)
  }

  lemma {:induction false} BodyEndsBeforePads(s: string)
    ensures |Body(s)| <= |s| - Pads(s)
  {
    var n := |s| - Pads(s);
    assert |Body(s)| > n ==> Body(s)[n] == s[n] && s[n] in Body(s);
    if n < |s| {
      PadsArePads(s, n);
    }
  }

  lemma {:induction false} PadsArePads(s: string, i: nat)
    requires |s| - Pads(s) <= i < |s|
    ensures s[i] == '='
  {
    if i < |s| - 1 {
      PadsArePads(s[..|s| - 1], i);
    }
  }

  /** Whatever is accepted fits in what was estimated. */
  lemma DecodedFits(s: string)
    requires Accepted(s)
    ensures |Decoded(s)| <= Estimated(s)
  {
    hide Pads, Body, Groups, Bits, Lettered;
    BodyEndsBeforePads(s);
    Fits(|s|, |Body(s)|, Pads(s));
  }

  lemma Fits(n: nat, letters: nat, pads: nat)
    requires n % 4 == 0 && pads <= 2 && letters + pads <= n
    ensures letters / 4 * 3 + (if pads == 0 then 0 else 3 - pads) <= n * 3 / 4 - pads
  {
    var k, q, r := n / 4, letters / 4, letters % 4;
    assert n == 4 * k && letters == 4 * q + r;
    assert n * 3 / 4 == 3 * k;
  }

  lemma LetteredParts(s: string, t: string)
    ensures Lettered(s + t) <==> Lettered(s) && Lettered(t)
  {
    hide Value;
    assert forall i :: 0 <= i < |t| ==> (s + t)[|s| + i] == t[i];
    assert forall i :: 0 <= i < |s| ==> (s + t)[i] == s[i];
  }

  lemma {:induction false} GroupsAppend(s: string, t: string)
    requires |s| % 4 == 0 && Lettered(s) && Lettered(t)
    ensures Lettered(s + t) && Groups(s + t) == Groups(s) + Groups(t)
    decreases |s|
  {
    hide Value, Group, Lettered;
    LetteredParts(s, t);
    if s == "" {
      assert s + t == t && [] + Groups(t) == Groups(t);
    } else {
      LetteredParts(s[..4], s[4..]);
      assert s == s[..4] + s[4..];
      GroupsAppend(s[4..], t);
      FirstGroup(s, t);
      assert Group(s[..4]) + (Groups(s[4..]) + Groups(t)) == (Group(s[..4]) + Groups(s[4..])) + Groups(t);
    }
  }

  lemma FirstGroup(s: string, t: string)
    requires |s| >= 4 && Lettered(s) && Lettered(s[..4]) && Lettered(s[4..] + t) && Lettered(s + t)
    ensures Groups(s + t) == Group(s[..4]) + Groups(s[4..] + t)
  {
    hide Lettered, Group;
    assert (s + t)[..4] == s[..4] && (s + t)[4..] == s[4..] + t;
  }

  /** `base64Decode`; a null destination asks for the size, which need not be exact. */
  method Decode(data: string, dst: array?<Byte>, sz: nat) returns (ok: bool, size: nat)
    requires |data| * 3 <= MAX_U32
    requires dst != null ==> sz <= dst.Length
    modifies dst
    ensures dst == null ==> ok == (|data| % 4 == 0 && Pads(data) <= 2) && (ok ==> size == Estimated(data))
    ensures dst != null ==> ok == (Accepted(data) && Estimated(data) <= sz)
    ensures dst != null && ok ==> size <= Estimated(data) && dst[..size] == Decoded(data)
    ensures !ok ==> size == sz
    ensures dst != null ==> forall i :: 0 <= i < dst.Length && Estimated(data) <= i ==> dst[i] == old(dst[i])
  {
    size := sz;
    if |data| % 4 != 0 {
      return false, sz;
    }
    var numEquals := CountPads(data);
    if numEquals > 2 {
      return false, sz;
    }
    var estimated := |data| * 3 / 4 - numEquals;
    if dst == null {
      return true, estimated;
    }
    if sz < estimated {
      return false, sz;
    }
    var done, pos := DecodeLetters(data, dst);
    ok, size := done, if done then pos else sz;
  }

  method CountPads(data: string) returns (n: nat)
    ensures n == Pads(data)
  {
    n := 0;
    var i := |data| - 1;
    assert data[..|data|] == data;
    while i >= 0 && data[i] == '='
      invariant -1 <= i < |data| && n + Pads(data[..i + 1]) == Pads(data)
    {
      assert data[..i + 1][..i] == data[..i];
      n := n + 1;
      i := i - 1;
    }
  }

  /** `byte << shift`; the bits below are still clear, so that or-ing it in is adding it. */
  function Placed(v: nat, shift: nat): nat {
    if shift == 18 then v * 0x4_0000 else if shift == 12 then v * 0x1000 else if shift == 6 then v * 64 else v
  }

  lemma BitsNext(s: string, c: char)
    requires |s| < 4 && Lettered(s + [c])
    ensures Lettered(s) && Value(c) >= 0 && Bits(s + [c]) == Bits(s) + Placed(Value(c), 18 - 6 * |s|)
    ensures Bits(s) % (64 * Placed(1, 18 - 6 * |s|)) == 0
  {
    hide Value;
    assert forall i :: 0 <= i < |s| ==> s[i] == (s + [c])[i];
    assert (s + [c])[|s|] == c;
    BitsAligned(s);
  }

  /** The letters so far fill the bits above the next one's. */
  lemma BitsAligned(s: string)
    requires |s| < 4 && Lettered(s)
    ensures Bits(s) % (64 * Placed(1, 18 - 6 * |s|)) == 0
  {
    hide Value;
    if |s| == 1 {
      assert Bits(s) == Value(s[0]) * 0x4_0000;
    } else if |s| == 2 {
      assert Bits(s) == (Value(s[0]) * 64 + Value(s[1])) * 0x1000;
    } else if |s| == 3 {
      assert Bits(s) == (Value(s[0]) * 0x1000 + Value(s[1]) * 64 + Value(s[2])) * 64;
    }
  }

  lemma {:induction false} BodyIs(s: string, i: nat)
    requires i <= |s| && '=' !in s[..i] && (i < |s| ==> s[i] == '=')
    ensures Body(s) == s[..i]
  {
    if i > 0 {
      assert s[0] == s[..i][0];
      assert s[1..][..i - 1] == s[..i][1..];
      BodyIs(s[1..], i - 1);
    }
  }

  lemma {:induction false} BodyReaches(s: string, i: nat)
    requires i < |s| && '=' !in s[..i + 1]
    ensures i < |Body(s)| && Body(s)[i] == s[i]
  {
    assert s[0] == s[..i + 1][0];
    if i > 0 {
      assert s[1..][..i] == s[..i + 1][1..];
      BodyReaches(s[1..], i - 1);
    }
  }

  /** What the loop has done after `i` letters. */
  ghost predicate Progress(data: string, i: nat, out: seq<Byte>, bits: nat, shift: nat) {
    && i <= |data| && '=' !in data[..i] && Lettered(data[..i]) && Lettered(data[i / 4 * 4..i])
    && out == Groups(data[..i / 4 * 4]) && bits == Bits(data[i / 4 * 4..i]) && shift == 18 - 6 * (i % 4)
  }

  /** One letter more, within a group. */
  lemma LetterAdded(data: string, i: nat, bits: nat)
    requires i < |data| && '=' !in data[..i] && Lettered(data[..i]) && Lettered(data[i / 4 * 4..i])
    requires data[i] != '=' && Value(data[i]) >= 0 && bits == Bits(data[i / 4 * 4..i])
    ensures var start := i / 4 * 4;
            && '=' !in data[..i + 1] && Lettered(data[..i + 1]) && Lettered(data[start..i + 1])
            && Bits(data[start..i + 1]) == bits + Placed(Value(data[i]), 18 - 6 * (i % 4))
  {
    var start := i / 4 * 4;
    var part := data[start..i];
    assert data[start..i + 1] == part + [data[i]] && data[..i + 1] == data[..i] + [data[i]];
    hide Value, Placed, Bits;
    BitsNext(part, data[i]);
  }

  lemma ProgressNext(data: string, i: nat, out: seq<Byte>, bits: nat, shift: nat)
    requires Progress(data, i, out, bits, shift) && i < |data| && data[i] != '=' && Value(data[i]) >= 0
    ensures var all := bits + Placed(Value(data[i]), shift);
            if shift == 0 then all < 0x100_0000 && Progress(data, i + 1, out + [High(all), Mid(all), Low(all)], 0, 18)
            else Progress(data, i + 1, out, all, shift - 6)
  {
    hide Value, Placed, Bits, Groups, High, Mid, Low;
    var start := i / 4 * 4;
    LetterAdded(data, i, bits);
    if i % 4 == 3 {
      GroupAdded(data, start);
      assert i + 1 == start + 4 && (i + 1) / 4 * 4 == i + 1 && data[i + 1..i + 1] == "";
      NoBits();
    } else {
      assert (i + 1) / 4 * 4 == start;
    }
  }

  lemma GroupAdded(data: string, start: nat)
    requires start % 4 == 0 && start + 4 <= |data| && Lettered(data[..start]) && Lettered(data[start..start + 4])
    ensures Lettered(data[..start + 4])
    ensures Groups(data[..start + 4]) == Groups(data[..start]) + Group(data[start..start + 4])
  {
    hide Value, Group, Groups;
    assert data[..start + 4] == data[..start] + data[start..start + 4];
    GroupsAppend(data[..start], data[start..start + 4]);
    OneGroup(data[start..start + 4]);
  }

  lemma OneGroup(s: string)
    requires |s| == 4 && Lettered(s)
    ensures Groups(s) == Group(s)
  {
    assert s[..4] == s && Groups(s[4..]) == [];
  }

  lemma NoBits()
    ensures Bits("") == 0
  {
  }

  /** What the loop does with a letter. */
  method TakeLetter(data: string, i: nat, dst: array<Byte>, pos: nat, bits: nat, shift: nat)
    returns (pos': nat, bits': nat, shift': nat)
    requires pos <= dst.Length && Progress(data, i, dst[..pos], bits, shift)
    requires i < |data| && data[i] != '=' && Value(data[i]) >= 0 && (shift == 0 ==> pos + 3 <= dst.Length)
    modifies dst
    ensures pos' == (if shift == 0 then pos + 3 else pos) <= dst.Length &&
            Progress(data, i + 1, dst[..pos'], bits', shift')
    ensures forall k :: pos' <= k < dst.Length ==> dst[k] == old(dst[k])
  {
    hide Value, Placed, Bits, Groups, High, Mid, Low;
    ProgressNext(data, i, dst[..pos], bits, shift);
    pos', bits', shift' := pos, bits + Placed(Value(data[i]), shift), shift;
    if shift == 0 {
      Emit(dst, pos, [High(bits'), Mid(bits'), Low(bits')]);
      pos' := pos + 3;
      bits', shift' := 0, 18;
    } else {
      shift' := shift - 6;
    }
  }

  /** The place in the output moves on by three with every fourth letter, and stays within the estimate. */
  lemma NextPlace(i: nat, letters: nat, n: nat, pads: nat)
    requires n % 4 == 0 && pads <= 2 && i < letters && letters + pads <= n
    ensures (i + 1) / 4 * 3 == i / 4 * 3 + (if 18 - 6 * (i % 4) == 0 then 3 else 0)
    ensures (i + 1) / 4 * 3 <= n * 3 / 4 - pads
  {
    var k, q, r := n / 4, i / 4, i % 4;
    assert n == 4 * k && i == 4 * q + r;
    assert n * 3 / 4 == 3 * k;
    if r == 3 {
      assert i + 1 == 4 * (q + 1);
    } else {
      assert i + 1 == 4 * q + (r + 1);
    }
  }

  /** The loop, and the bytes that the padding asks for. */
  method DecodeLetters(data: string, dst: array<Byte>) returns (ok: bool, pos: nat)
    requires |data| % 4 == 0 && Pads(data) <= 2 && Estimated(data) <= dst.Length
    modifies dst
    ensures ok <==> Accepted(data)
    ensures ok ==> pos <= Estimated(data) && dst[..pos] == Decoded(data)
    ensures forall i :: 0 <= i < dst.Length && Estimated(data) <= i ==> dst[i] == old(dst[i])
  {
    hide Value, Bits, Groups, Pads, Body, Decoded, High, Mid, Low, Tail;
    pos := 0;
    var i := 0;
    var bits: nat, shift: nat := 0, 18;
    ProgressStart(data);
    BodyEndsBeforePads(data);
    while i < |data|
      invariant 0 <= i <= |data| && pos == i / 4 * 3 <= Estimated(data)
      invariant Progress(data, i, dst[..pos], bits, shift)
      invariant forall k :: 0 <= k < dst.Length && Estimated(data) <= k ==> dst[k] == old(dst[k])
    {
      var chr := data[i];
      if chr == '=' {
        break;
      }
      assert data[..i + 1] == data[..i] + [chr];
      BodyReaches(data, i);
      if Value(chr) < 0 {
        return false, pos;
      }
      NextPlace(i, |Body(data)|, |data|, Pads(data));
      pos, bits, shift := TakeLetter(data, i, dst, pos, bits, shift);
      i := i + 1;
    }
    BodyIs(data, i);
    ok := true;
    pos := WriteTail(data, i, dst, pos, bits, shift);
  }

  /** Two bytes more for one padding character, one byte for two. */
  method WriteTail(data: string, ghost i: nat, dst: array<Byte>, pos: nat, bits: nat, ghost shift: nat)
    returns (end: nat)
    requires |data| % 4 == 0 && Pads(data) <= 2 && pos <= Estimated(data) <= dst.Length
    requires Progress(data, i, dst[..pos], bits, shift) && Body(data) == data[..i] && bits < 0x100_0000
    modifies dst
    ensures Accepted(data) && end <= Estimated(data) && dst[..end] == Decoded(data)
    ensures forall k :: 0 <= k < dst.Length && Estimated(data) <= k ==> dst[k] == old(dst[k])
  {
    TailIsRight(data, i, dst[..pos], bits, shift);
    hide Progress, Pads, Body, Decoded, High, Mid, Lettered;
    var numEquals := CountPads(data);
    end := pos;
    if numEquals == 1 {
      Emit(dst, end, [High(bits), Mid(bits)]);
      end := end + 2;
    } else if numEquals == 2 {
      Emit(dst, end, [High(bits)]);
      end := end + 1;
    }
    assert dst[..end] == old(dst[..pos]) + Tail(bits, numEquals);
  }

  lemma ProgressStart(data: string)
    ensures Progress(data, 0, [], 0, 18)
  {
    assert data[..0] == "" && data[0..0] == "";
  }

  method Emit(dst: array<Byte>, pos: nat, bytes: seq<Byte>)
    requires pos + |bytes| <= dst.Length
    modifies dst
    ensures dst[..pos + |bytes|] == old(dst[..pos]) + bytes
    ensures forall k :: pos + |bytes| <= k < dst.Length ==> dst[k] == old(dst[k])
  {
    forall k | 0 <= k < |bytes| {
      dst[pos + k] := bytes[k];
    }
  }

  lemma TailIsRight(data: string, i: nat, out: seq<Byte>, bits: nat, shift: nat)
    requires Progress(data, i, out, bits, shift) && Body(data) == data[..i]
    requires |data| % 4 == 0 && Pads(data) <= 2
    ensures Accepted(data) && Decoded(data) == out + Tail(bits, Pads(data))
    ensures |Decoded(data)| <= Estimated(data)
  {
    hide Value, Bits, Pads, Body, Tail, Lettered;
    WholeGroups(i);
    var b, whole, part := data[..i], data[..i / 4 * 4], data[i / 4 * 4..i];
    assert b[|b| / 4 * 4..] == part && b == whole + part;
    LetteredParts(whole, part);
    GroupsAppend(whole, part);
    assert Groups(part) == [] && out + [] == out;
    hide Groups;
    DecodedFits(data);
  }

  lemma WholeGroups(i: nat)
    ensures i / 4 * 4 <= i < i / 4 * 4 + 4 && (i / 4 * 4) % 4 == 0
  {
  }

  // What was encoded comes back.

  lemma FourBack(a: nat, b: nat, c: nat, d: nat)
    requires a < 64 && b < 64 && c < 64 && d < 64
    ensures Lettered(Four(a, b, c, d)) && '=' !in Four(a, b, c, d)
    ensures Bits(Four(a, b, c, d)) == a * 0x4_0000 + b * 0x1000 + c * 64 + d
  {
    ValueOfLetter(a);
    ValueOfLetter(b);
    ValueOfLetter(c);
    ValueOfLetter(d);
    hide Value, Letter;
  }

  lemma Bytes(x: Byte, y: Byte, z: Byte)
    ensures var b := x * 0x1_0000 + y * 0x100 + z; b < 0x100_0000 && High(b) == x && Mid(b) == y && Low(b) == z
  {
  }

  lemma PackDigits(n: nat)
    ensures n == n / 0x4_0000 * 0x4_0000 + n / 0x1000 % 64 * 0x1000 + n / 64 % 64 * 64 + n % 64
  {
    assert n / 0x1000 == n / 64 / 64 && n / 0x4_0000 == n / 64 / 64 / 64;
  }

  lemma ThreeBack(x: Byte, y: Byte, z: Byte)
    ensures Lettered(Three(x, y, z)) && '=' !in Three(x, y, z) && Group(Three(x, y, z)) == [x, y, z]
  {
    hide Four, Bits, High, Mid, Low, Lettered;
    var pack := x * 0x1_0000 + y * 0x100 + z;
    var a, b, c, d := pack / 0x4_0000, pack / 0x1000 % 64, pack / 64 % 64, pack % 64;
    assert Three(x, y, z) == Four(a, b, c, d);
    PackDigits(pack);
    FourBack(a, b, c, d);
    Bytes(x, y, z);
  }

  lemma {:induction false} PadsBehind(t: string, s: string)
    requires t != "" && '=' !in t
    ensures Pads(t + s) == Pads(s)
    decreases |s|
  {
    if s == "" {
      assert t + s == t && t[|t| - 1] in t;
    } else {
      var n := |s| - 1;
      assert (t + s)[..|t + s| - 1] == t + s[..n];
      PadsBehind(t, s[..n]);
    }
  }

  lemma BodyFirst(s: string)
    requires s != "" && s[0] != '='
    ensures Body(s) == [s[0]] + Body(s[1..])
  {
  }

  lemma {:induction false} BodyBehind(t: string, s: string)
    requires '=' !in t
    ensures Body(t + s) == t + Body(s)
    decreases |t|
  {
    if t == "" {
      assert t + s == s && t + Body(s) == Body(s);
    } else {
      hide Body;
      assert t[0] in t && (t + s)[1..] == t[1..] + s;
      BodyBehind(t[1..], s);
      BodyFirst(t + s);
      assert [t[0]] + (t[1..] + Body(s)) == t + Body(s);
    }
  }

  /** Nothing but letters before the padding, and no bits set that the padding cuts off. */
  predicate Canonical(s: string)
    requires Accepted(s)
  {
    var b := Body(s);
    var bits := Bits(b[|b| / 4 * 4..]);
    && |b| + Pads(s) == |s|
    && (Pads(s) == 1 ==> Low(bits) == 0)
    && (Pads(s) == 2 ==> Mid(bits) == 0 && Low(bits) == 0)
  }

  /** A group of letters in front. */
  lemma Behind(t: string, s: string)
    requires |t| == 4 && Lettered(t) && '=' !in t && |s| % 4 == 0
    ensures Accepted(t + s) <==> Accepted(s)
    ensures Accepted(s) ==> Decoded(t + s) == Group(t) + Decoded(s) && (Canonical(t + s) <==> Canonical(s))
  {
    hide Bits, Pads, Body, Group, Groups, Tail, Low, Mid, Lettered;
    PadsBehind(t, s);
    BodyBehind(t, s);
    LetteredParts(t, Body(s));
    if Accepted(s) {
      var b := Body(s);
      assert b == b[..|b| / 4 * 4] + b[|b| / 4 * 4..];
      LetteredParts(b[..|b| / 4 * 4], b[|b| / 4 * 4..]);
      GroupBehind(t, b, Bits(b[|b| / 4 * 4..]), Pads(s));
    }
  }

  lemma GroupBehind(t: string, b: string, bits: nat, pads: nat)
    requires |t| == 4 && Lettered(t) && Lettered(b) && Lettered(t + b) && bits < 0x100_0000
    ensures (t + b)[|t + b| / 4 * 4..] == b[|b| / 4 * 4..]
    ensures Groups(t + b) + Tail(bits, pads) == Group(t) + (Groups(b) + Tail(bits, pads))
  {
    hide Group, Groups, Tail, Lettered;
    GroupsAppend(t, b);
    OneGroup(t);
  }

  /** A last group: some letters, then padding. */
  lemma LastGroup(s: string, letters: nat)
    requires |s| == 4 && (letters == 2 || letters == 3) && Lettered(s[..letters]) && '=' !in s[..letters]
    requires s[3] == '=' && s[letters] == '='
    ensures Pads(s) == 4 - letters && Body(s) == s[..letters] && Accepted(s)
    ensures Decoded(s) == Tail(Bits(s[..letters]), 4 - letters)
    ensures Canonical(s) <==> Low(Bits(s[..letters])) == 0 && (letters == 2 ==> Mid(Bits(s[..letters])) == 0)
  {
    hide Value, Bits, Tail, Low, Mid;
    BodyIs(s, letters);
    assert s == s[..letters] + s[letters..];
    PadsBehind(s[..letters], s[letters..]);
    assert s[letters..] == if letters == 2 then "==" else "=";
    TwoPads();
    assert s[..letters][0..] == s[..letters] &&
        [] + Tail(Bits(s[..letters]), 4 - letters) == Tail(Bits(s[..letters]), 4 - letters);
  }

  lemma TwoPads()
    ensures Pads("=") == 1 && Pads("==") == 2
  {
    assert "=="[..1] == "=" && "="[..0] == "";
  }

  lemma TwoDigits(x: Byte, y: Byte) returns (a: nat, b: nat, c: nat)
    ensures a < 64 && b < 64 && c < 64 && Two(x, y) == [Letter(a), Letter(b), Letter(c), '=']
    ensures a * 0x4_0000 + b * 0x1000 + c * 64 == x * 0x1_0000 + y * 0x100
  {
    hide Letter;
    var pack := x * 0x400 + y * 4;
    a, b, c := pack / 0x1000, pack / 64 % 64, pack % 64;
    ThreeDigits(pack);
  }

  lemma ThreeDigits(n: nat)
    requires n < 0x4_0000
    ensures n / 0x1000 < 64 && n == n / 0x1000 * 0x1000 + n / 64 % 64 * 64 + n % 64
  {
    var q, r := n / 64, n % 64;
    assert n == q * 64 + r;
    var a, b := q / 64, q % 64;
    assert q == a * 64 + b;
    By1000(a, b * 64 + r);
  }

  lemma By1000(q: nat, r: nat)
    requires r < 0x1000
    ensures (q * 0x1000 + r) / 0x1000 == q
  {
  }

  lemma TwoBack(x: Byte, y: Byte)
    ensures Accepted(Two(x, y)) && Decoded(Two(x, y)) == [x, y] && Canonical(Two(x, y))
  {
    hide Two, Letter, Pads, Body, Groups, Accepted, Decoded, Canonical, High, Mid, Low, Bits, Lettered;
    var a, b, c := TwoDigits(x, y);
    ShortBack(a, b, c);
    assert Two(x, y)[..3] == [Letter(a), Letter(b), Letter(c)];
    Bytes(x, y, 0);
    LastGroup(Two(x, y), 3);
  }

  lemma OneBack(x: Byte)
    ensures Accepted(One(x)) && Decoded(One(x)) == [x] && Canonical(One(x))
  {
    hide Pads, Body, Groups, Accepted, Decoded, Canonical, High, Mid, Low, Bits, Lettered;
    var pack, s := x * 16, One(x);
    var a, b := pack / 64, pack % 64;
    ShortBack(a, b, 0);
    assert s[..2] == [Letter(a), Letter(b)];
    Bytes(x, 0, 0);
    LastGroup(s, 2);
  }

  lemma ShortBack(a: nat, b: nat, c: nat)
    requires a < 64 && b < 64 && c < 64
    ensures var s := [Letter(a), Letter(b), Letter(c)];
            Lettered(s) && '=' !in s && Bits(s) == a * 0x4_0000 + b * 0x1000 + c * 64
    ensures var s := [Letter(a), Letter(b)];
            Lettered(s) && '=' !in s && Bits(s) == a * 0x4_0000 + b * 0x1000
  {
    ValueOfLetter(a);
    ValueOfLetter(b);
    ValueOfLetter(c);
    hide Value, Letter;
  }

  /** Decoding an encoding gives the bytes back. */
  lemma {:induction false} RoundTrip(data: seq<Byte>)
    ensures Accepted(Encoded(data)) && Decoded(Encoded(data)) == data && Canonical(Encoded(data))
  {
    hide Three, Two, One, Accepted, Decoded, Canonical;
    if data == [] {
      Nothing();
    } else if |data| == 1 {
      OneBack(data[0]);
    } else if |data| == 2 {
      TwoBack(data[0], data[1]);
    } else {
      RoundTrip(data[3..]);
      EncodedLength(data[3..]);
      GroupRoundTrip(data[0], data[1], data[2], Encoded(data[3..]));
      assert [data[0], data[1], data[2]] + data[3..] == data;
    }
  }

  /** For an encoding the estimate is the number of bytes encoded. */
  lemma EstimateOfEncoding(data: seq<Byte>)
    ensures Estimated(Encoded(data)) == |data|
  {
    EncodedLength(data);
    EncodedPads(data);
    hide Encoded, Pads;
    var q, r := |data| / 3, |data| % 3;
    assert |data| == 3 * q + r && (|data| + 2) / 3 == if r == 0 then q else q + 1;
  }

  lemma {:induction false} EncodedPads(data: seq<Byte>)
    ensures Pads(Encoded(data)) == (3 - |data| % 3) % 3
  {
    hide Pads, Three, Two, One;
    if |data| == 0 {
      NoPads();
    } else if |data| == 1 {
      var x := data[0];
      OneBits(x);
      PadsAfter([Letter(x / 4), Letter(x % 4 * 16)], "==");
      assert Encoded(data) == [Letter(x / 4), Letter(x % 4 * 16)] + "==";
    } else if |data| == 2 {
      var x, y := data[0], data[1];
      TwoBits(x, y);
      PadsAfter([Letter(x / 4), Letter(x % 4 * 16 + y / 16), Letter(y % 16 * 4)], "=");
      assert Encoded(data) == [Letter(x / 4), Letter(x % 4 * 16 + y / 16), Letter(y % 16 * 4)] + "=";
    } else {
      var x, y, z := data[0], data[1], data[2];
      EncodedPads(data[3..]);
      ThreeBits(x, y, z);
      PadsAfter(Three(x, y, z), Encoded(data[3..]));
    }
  }

  lemma NoPads()
    ensures Pads("") == 0
  {
  }

  /** Letters are no padding. */
  lemma PadsAfter(t: string, s: string)
    requires t != "" && forall i :: 0 <= i < |t| ==> exists v :: 0 <= v < 64 && t[i] == Letter(v)
    ensures Pads(t + s) == Pads(s) && Pads("=") == 1 && Pads("==") == 2
  {
    TwoPads();
    hide Pads, Letter;
    forall i | 0 <= i < |t|
      ensures t[i] != '='
    {
      var v :| 0 <= v < 64 && t[i] == Letter(v);
      ValueOfLetter(v);
    }
    PadsBehind(t, s);
  }

  lemma GroupRoundTrip(x: Byte, y: Byte, z: Byte, rest: string)
    requires |rest| % 4 == 0 && Accepted(rest) && Canonical(rest)
    ensures var s := Three(x, y, z) + rest; Accepted(s) && Canonical(s) && Decoded(s) == [x, y, z] + Decoded(rest)
  {
    hide Three, Accepted, Decoded, Canonical, Group, Lettered;
    ThreeBack(x, y, z);
    Behind(Three(x, y, z), rest);
  }

  lemma Nothing()
    ensures Accepted("") && Decoded("") == [] && Canonical("") && Encoded([]) == ""
  {
  }

  // Which strings are encodings.

  lemma LetterOfValue(c: char)
    requires Value(c) >= 0
    ensures Letter(Value(c)) == c
  {
  }

  lemma DigitsBack(a: nat, b: nat, c: nat, d: nat)
    requires a < 64 && b < 64 && c < 64 && d < 64
    ensures var n := a * 0x4_0000 + b * 0x1000 + c * 64 + d;
            n / 0x4_0000 == a && n / 0x1000 % 64 == b && n / 64 % 64 == c && n % 64 == d
  {
    var n := a * 0x4_0000 + b * 0x1000 + c * 64 + d;
    assert n / 64 == a * 0x1000 + b * 64 + c && n / 0x1000 == a * 64 + b;
  }

  lemma BytesOf(n: nat)
    requires n < 0x100_0000
    ensures High(n) * 0x1_0000 + Mid(n) * 0x100 + Low(n) == n
  {
  }

  lemma GroupBack(t: string)
    requires |t| == 4 && Lettered(t)
    ensures var g := Group(t); Three(g[0], g[1], g[2]) == t
  {
    hide Value, High, Mid, Low, Letter;
    LetterOfValue(t[0]);
    LetterOfValue(t[1]);
    LetterOfValue(t[2]);
    LetterOfValue(t[3]);
    BytesOf(Bits(t));
    DigitsBack(Value(t[0]), Value(t[1]), Value(t[2]), Value(t[3]));
  }

  lemma ShortGroupBack(t: string, letters: nat)
    requires |t| == 4 && (letters == 2 || letters == 3) && Lettered(t[..letters])
    requires t[3] == '=' && t[letters] == '='
    requires var n := Bits(t[..letters]); Low(n) == 0 && (letters == 2 ==> Mid(n) == 0)
    ensures var n := Bits(t[..letters]); t == if letters == 3 then Two(High(n), Mid(n)) else One(High(n))
  {
    hide Value, High, Mid, Low, Letter, Two, One;
    var n := Bits(t[..letters]);
    assert t[..letters][0] == t[0] && t[..letters][1] == t[1];
    LetterOfValue(t[0]);
    LetterOfValue(t[1]);
    BytesOf(n);
    if letters == 3 {
      assert t[..letters][2] == t[2];
      LetterOfValue(t[2]);
      TwoLetters(High(n), Mid(n), Value(t[0]), Value(t[1]), Value(t[2]));
      assert t == [t[0], t[1], t[2], '='];
    } else {
      OneLetters(High(n), Value(t[0]), Value(t[1]));
      assert t == [t[0], t[1], '=', '='];
    }
  }

  lemma TwoLetters(x: Byte, y: Byte, a: nat, b: nat, c: nat)
    requires a < 64 && b < 64 && c < 64 && x * 0x1_0000 + y * 0x100 == a * 0x4_0000 + b * 0x1000 + c * 64
    ensures Two(x, y) == [Letter(a), Letter(b), Letter(c), '=']
  {
    hide Letter;
    assert x * 0x400 + y * 4 == a * 0x1000 + b * 64 + c;
    DigitsBack(0, a, b, c);
  }

  lemma OneLetters(x: Byte, a: nat, b: nat)
    requires a < 64 && b < 64 && x * 0x1_0000 == a * 0x4_0000 + b * 0x1000
    ensures One(x) == [Letter(a), Letter(b), '=', '=']
  {
    hide Letter;
    assert x * 16 == a * 64 + b;
    DigitsBack(0, 0, a, b);
  }

  lemma {:induction false} Reencoded(s: string)
    requires Accepted(s) && Canonical(s)
    ensures Encoded(Decoded(s)) == s
    decreases |s|
  {
    if s == "" {
      Nothing();
    } else if |s| == 4 && Pads(s) > 0 {
      LastReencoded(s);
    } else {
      FirstLetters(s);
      var t, rest := s[..4], s[4..];
      assert s == t + rest && |rest| < |s|;
      hide *;
      Behind(t, rest);
      Reencoded(rest);
      FirstReencoded(t, rest);
    }
  }

  lemma FirstLetters(s: string)
    requires Accepted(s) && Canonical(s) && s != "" && (|s| == 4 ==> Pads(s) == 0)
    ensures |s| >= 4 && |s[4..]| % 4 == 0 && Lettered(s[..4]) && '=' !in s[..4]
  {
    hide Value, Bits, Pads, Body, Low, Mid;
    var b := Body(s);
    assert forall i :: 0 <= i < 4 ==> s[..4][i] == b[i];
  }

  lemma FirstReencoded(t: string, rest: string)
    requires |t| == 4 && Lettered(t) && Accepted(rest) && Accepted(t + rest)
    requires Decoded(t + rest) == Group(t) + Decoded(rest) && Encoded(Decoded(rest)) == rest
    ensures Encoded(Decoded(t + rest)) == t + rest
  {
    hide Accepted, Decoded, Lettered, Group, Three, One, Two;
    GroupBack(t);
    var g, d := Group(t), Decoded(rest);
    assert (g + d)[3..] == d;
  }

  lemma LastReencoded(s: string)
    requires Accepted(s) && Canonical(s) && |s| == 4 && Pads(s) > 0
    ensures Encoded(Decoded(s)) == s
  {
    LastLetters(s);
    hide Bits, Low, Mid, High, Value, Lettered, Two, One, Pads, Body, Groups, Decoded, Canonical, Accepted;
    LastGroup(s, 4 - Pads(s));
    ShortGroupBack(s, 4 - Pads(s));
  }

  lemma LastLetters(s: string)
    requires Accepted(s) && Canonical(s) && |s| == 4 && Pads(s) > 0
    ensures var letters := 4 - Pads(s);
            Lettered(s[..letters]) && '=' !in s[..letters] && s[3] == '=' && s[letters] == '='
  {
    hide Value, Bits;
    assert s[..4 - Pads(s)] == Body(s);
  }

  /** An accepted string is the encoding of what it decodes to exactly when it is canonical. */
  lemma EncodingIffCanonical(s: string)
    requires Accepted(s)
    ensures Encoded(Decoded(s)) == s <==> Canonical(s)
  {
    hide Accepted, Decoded, Canonical, Encoded;
    RoundTrip(Decoded(s));
    if Canonical(s) {
      Reencoded(s);
    }
  }
}
