/** include/mgpcl/Hasher.h: the mixer behind hash maps with integer keys, on 32-bit words. */
module Hasher {
  import opened Words

  const WORDS := 0x1_0000_0000

  type Word = n: nat | n < WORDS

  const MULTIPLIER := 0x45d9f3b

  /** The inverse of the multiplier modulo 2^32. */
  const INVERSE := 0x119de1f3

  function Times(i: Word, factor: nat): Word {
    i * factor % WORDS
  }

  /** `(i >> 16) ^ i` */
  function Fold(i: Word): Word {
    FoldBelow(i);
    Xor(Shift(i, 16), i)
  }

  lemma FoldBelow(i: Word)
    ensures Xor(Shift(i, 16), i) < WORDS
  {
    Pow2Of32();
    ShiftDown(i, 16);
    XorBelow(Shift(i, 16), i, 32);
  }

  function Mix(i: Word): Word {
    Fold(Times(Fold(Times(Fold(i), MULTIPLIER)), MULTIPLIER))
  }

  function Unmix(h: Word): Word {
    Fold(Times(Fold(Times(Fold(h), INVERSE)), INVERSE))
  }

  lemma FoldTwice(i: Word)
    ensures Fold(Fold(i)) == i
  {
    hide Xor, Shift;
    var high := Shift(i, 16);
    ShiftXor(high, i, 16);
    ShiftShift(i, 16, 16);
    Pow2Of32();
    ShiftOut(i, 32);
    XorZero(high);
    XorCancels(high, i);
  }

  /** The two factors multiply to one more than a multiple of 2^32. */
  lemma MultiplyBack(i: Word)
    ensures Times(Times(i, MULTIPLIER), INVERSE) == i && Times(Times(i, INVERSE), MULTIPLIER) == i
  {
    assert MULTIPLIER * INVERSE == 1 + 0x4ce8d8 * WORDS;
    var j, k := i * MULTIPLIER / WORDS, i * INVERSE / WORDS;
    Remainder(Times(i, MULTIPLIER) * INVERSE, i, i * 0x4ce8d8 - j * INVERSE);
    Remainder(Times(i, INVERSE) * MULTIPLIER, i, i * 0x4ce8d8 - k * MULTIPLIER);
  }

  lemma Remainder(n: nat, r: Word, q: int)
    requires n == r + q * WORDS
    ensures n % WORDS == r
  {
  }

  /** The mixer is a permutation of the words: every word is the hash of exactly one. */
  lemma MixIsPermutation(i: Word)
    ensures Unmix(Mix(i)) == i && Mix(Unmix(i)) == i
  {
    hide Fold, Times;
    var a := Times(Fold(i), MULTIPLIER);
    var b := Times(Fold(a), MULTIPLIER);
    FoldTwice(i);
    FoldTwice(a);
    FoldTwice(b);
    MultiplyBack(Fold(i));
    MultiplyBack(Fold(a));
    var c := Times(Fold(i), INVERSE);
    var d := Times(Fold(c), INVERSE);
    FoldTwice(c);
    FoldTwice(d);
    MultiplyBack(Fold(c));
  }

  type Int32 = n: int | -0x8000_0000 <= n < 0x8000_0000

  /** A word read as a signed number. */
  function Signed(w: Word): Int32 {
    if w < 0x8000_0000 then w else w - WORDS
  }

  function Unsigned(n: Int32): (w: Word)
    ensures Signed(w) == n
  {
    if n >= 0 then n else n + WORDS
  }

  /** `DefaultHasher<int>`, and for unsigned keys without the first conversion. */
  function IntHash(key: Int32): Int32 {
    Signed(Mix(Unsigned(key)))
  }

  lemma IntHashInjective(j: Int32, k: Int32)
    ensures IntHash(j) == IntHash(k) ==> j == k
  {
    hide Mix, Unmix;
    MixIsPermutation(Unsigned(j));
    MixIsPermutation(Unsigned(k));
  }

  /** The one key whose hash has no absolute value. */
  lemma OneKeyHasNoBucket(key: Int32)
    ensures IntHash(key) == -0x8000_0000 <==> key == Signed(Unmix(0x8000_0000))
  {
    hide Mix, Unmix;
    MixIsPermutation(Unsigned(key));
    MixIsPermutation(0x8000_0000);
  }

  // One hash computed.

  lemma HalfOf(u: nat, c: nat)
    ensures (2 * u + c) / 2 == u + c / 2
  {
  }

  lemma TwiceOf(a: nat, p: nat)
    ensures a * (2 * p) == 2 * (a * p)
  {
  }

  lemma XorBit(a: nat, b: nat, c: nat, d: nat)
    requires a == c / 2 && b == d / 2
    ensures Xor(c, d) == 2 * Xor(a, b) + (c + d) % 2
  {
    XorParts(c, d);
  }

  lemma XorAbove(u: nat, v: nat, c: nat, d: nat, x: nat)
    requires Xor(u + c / 2, v + d / 2) == x + Xor(c / 2, d / 2)
    ensures Xor(2 * u + c, 2 * v + d) == 2 * x + Xor(c, d)
  {
    hide Xor;
    HalfOf(u, c);
    HalfOf(v, d);
    XorBit(u + c / 2, v + d / 2, 2 * u + c, 2 * v + d);
    XorBit(c / 2, d / 2, c, d);
    SameRest(u + v, c + d);
  }

  lemma SameRest(u: nat, c: nat)
    ensures (2 * u + c) % 2 == c % 2
  {
  }

  /** Digits do not influence each other. */
  lemma {:induction false} XorDigits(a: nat, b: nat, c: nat, d: nat, k: nat)
    requires c < Pow2(k) && d < Pow2(k)
    ensures Xor(a * Pow2(k) + c, b * Pow2(k) + d) == Xor(a, b) * Pow2(k) + Xor(c, d)
    decreases k
  {
    hide Xor;
    if k == 0 {
      XorZero(0);
    } else {
      var p := Pow2(k - 1);
      XorDigits(a, b, c / 2, d / 2, k - 1);
      XorAbove(a * p, b * p, c, d, Xor(a, b) * p);
      TwiceOf(a, p);
      TwiceOf(b, p);
      TwiceOf(Xor(a, b), p);
    }
  }

  lemma {:induction false} ShiftAway(a: nat, c: nat, k: nat)
    requires c < Pow2(k)
    ensures Shift(a * Pow2(k) + c, k) == a
    decreases k
  {
    if k > 0 {
      ShiftAway(a, c / 2, k - 1);
      TwiceOf(a, Pow2(k - 1));
      HalfOf(a * Pow2(k - 1), c);
    }
  }

  /** The halves of a word: the upper one stays, and is added to the lower one bit by bit. */
  lemma FoldHalves(high: nat, low: nat)
    requires high < 0x1_0000 && low < 0x1_0000
    ensures Fold(0x1_0000 * high + low) == 0x1_0000 * high + Xor(high, low)
  {
    hide Xor, Shift, Pow2;
    PowersOfTwo();
    var unit := Pow2(16);
    assert high * unit == 0x1_0000 * high;
    ShiftAway(high, low, 16);
    XorDigits(0, high, high, low, 16);
    XorZero(high);
  }

  lemma PowersOfTwo()
    ensures Pow2(4) == 16 && Pow2(16) == 0x1_0000
  {
    assert Pow2(8) == 0x100;
  }

  lemma FirstDigits()
    ensures Xor(0x4, 0xF) == 0xB && Xor(0x5, 0x3) == 0x6 && Xor(0xD, 0xB) == 0x6
  {
    hide Xor;
    XorZero(1);
    XorParts(1, 3);
    XorParts(2, 7);
    XorParts(4, 15);
    XorParts(2, 1);
    XorParts(5, 3);
    XorSame(1);
    XorParts(3, 2);
    XorParts(6, 5);
    XorParts(13, 11);
  }

  lemma SecondDigits()
    ensures Xor(0x3, 0x2) == 0x1 && Xor(0x1, 0xA) == 0xB && Xor(0x2, 0x8) == 0xA && Xor(0x5, 0x2) == 0x7
  {
    hide Xor;
    XorSame(1);
    XorParts(3, 2);
    XorZero(5);
    XorParts(1, 10);
    XorZero(2);
    XorParts(1, 4);
    XorParts(2, 8);
    XorZero(1);
    XorParts(2, 1);
    XorParts(5, 2);
  }

  lemma FourDigits(a3: nat, a2: nat, a1: nat, a0: nat, b3: nat, b2: nat, b1: nat, b0: nat)
    requires a3 < 16 && a2 < 16 && a1 < 16 && a0 < 16 && b3 < 16 && b2 < 16 && b1 < 16 && b0 < 16
    ensures Xor(((a3 * 16 + a2) * 16 + a1) * 16 + a0, ((b3 * 16 + b2) * 16 + b1) * 16 + b0)
            == ((Xor(a3, b3) * 16 + Xor(a2, b2)) * 16 + Xor(a1, b1)) * 16 + Xor(a0, b0)
  {
    hide Xor, Pow2;
    PowersOfTwo();
    XorDigits(a3, b3, a2, b2, 4);
    XorDigits(a3 * 16 + a2, b3 * 16 + b2, a1, b1, 4);
    XorDigits((a3 * 16 + a2) * 16 + a1, (b3 * 16 + b2) * 16 + b1, a0, b0, 4);
  }

  lemma FirstRound()
    ensures Fold(1) == 1 && Times(1, MULTIPLIER) == 0x045D_9F3B && Fold(0x045D_9F3B) == 0x045D_9B66
  {
    hide Xor, Fold;
    FoldHalves(0, 1);
    XorZero(1);
    FoldHalves(0x045D, 0x9F3B);
    FourDigits(0x0, 0x4, 0x5, 0xD, 0x9, 0xF, 0x3, 0xB);
    XorZero(0x9);
    FirstDigits();
  }

  lemma SecondRound()
    ensures Times(0x045D_9B66, MULTIPLIER) == 0x3125_2A82 && Fold(0x3125_2A82) == 0x3125_1BA7
  {
    hide Xor, Fold;
    FoldHalves(0x3125, 0x2A82);
    FourDigits(0x3, 0x1, 0x2, 0x5, 0x2, 0xA, 0x8, 0x2);
    SecondDigits();
  }

  /** What the two rounds make of the key 1. */
  lemma KnownHash()
    ensures IntHash(1) == 0x3125_1BA7
  {
    hide Fold, Times;
    FirstRound();
    SecondRound();
  }
}
