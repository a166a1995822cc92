/** src/BigNumber.cpp: the square root of a big number, digit by digit. */
module BnSqrt {
  import opened Words

  predicate IsRoot(r: nat, n: nat) {
    r * r <= n < (r + 1) * (r + 1)
  }

  function BitLength(n: nat): nat {
    if n == 0 then 0 else 1 + BitLength(n / 2)
  }

  /** `BN_set_bit` on zero; a negative position is refused and leaves the zero. */
  function SetBit(at: int): nat {
    if at < 0 then 0 else Pow2(at)
  }

  /** The first bit tried is this times a power of four. */
  function Unit(src: nat): (u: nat)
    ensures u == 1 || u == 2
  {
    if BitLength(src) % 2 == 0 then 1 else 2
  }

  lemma {:induction false} BitLengthBounds(n: nat)
    ensures n < Pow2(BitLength(n))
    ensures n > 0 ==> BitLength(n) > 0 && Pow2(BitLength(n) - 1) <= n
  {
    if n > 0 {
      BitLengthBounds(n / 2);
    }
  }

  lemma {:induction false} Pow2Grows(i: nat, j: nat)
    requires i <= j
    ensures Pow2(i) <= Pow2(j)
  {
    if i < j {
      Pow2Grows(i, j - 1);
    }
  }

  /** A number has k bits if and only if it is from 2^(k-1) up to, but not, 2^k. */
  lemma BitLengthIff(n: nat, k: nat)
    requires k > 0
    ensures BitLength(n) == k <==> Pow2(k - 1) <= n < Pow2(k)
  {
    BitLengthBounds(n);
    var l := BitLength(n);
    if n > 0 && l < k {
      Pow2Grows(l, k - 1);
    } else if l > k {
      Pow2Grows(k, l - 1);
    }
  }

  /** A square of side `z`, in units. */
  function Area(u: nat, z: nat): nat {
    u * (z * z)
  }

  lemma {:induction false} AreaOfPow2(u: nat, i: nat)
    ensures Area(u, Pow2(i)) == u * Pow2(2 * i)
  {
    if i > 0 {
      AreaOfPow2(u, i - 1);
      AreaDoubles(u, Pow2(i - 1));
      assert Pow2(2 * i) == 4 * Pow2(2 * (i - 1));
      assert u * (4 * Pow2(2 * (i - 1))) == 4 * (u * Pow2(2 * (i - 1)));
    }
  }

  lemma AreaDoubles(u: nat, z: nat)
    ensures Area(u, 2 * z) == 4 * Area(u, z)
  {
    assert u * ((2 * z) * (2 * z)) == 4 * (u * (z * z));
  }

  lemma AreaGrows(u: nat, y: nat, c: nat)
    ensures Area(u, y + c) == Area(u, y) + 2 * (y * c * u) + Area(u, c)
    ensures (y + c) * c * u == y * c * u + Area(u, c)
    ensures y * (2 * c) * u == 2 * (y * c * u)
  {
    assert (y + c) * (y + c) == y * y + 2 * (y * c) + c * c;
    assert u * ((y + c) * (y + c)) == u * (y * y) + 2 * (y * c * u) + u * (c * c);
    assert (y + c) * c == y * c + c * c;
  }

  /** Where the second loop stands: the root found so far is `y`, and the next digit is worth half of `c`. */
  ghost predicate Digits(src: nat, bit: nat, num: int, res: nat, u: nat, y: nat, c: nat) {
    && bit == Area(u, c) / 4 && res == y * c * u
    && num == src - Area(u, y) >= 0 && src < Area(u, y + c)
  }

  /** The first bit is a quarter of a square that is too large. */
  lemma FirstBit(src: nat)
    ensures var u, c := Unit(src), Pow2(BitLength(src) / 2);
            SetBit(BitLength(src) - 2) == Area(u, c) / 4 && src < Area(u, c)
  {
    var k := BitLength(src);
    BitLengthBounds(src);
    AreaOfPow2(Unit(src), k / 2);
    var h := k / 2;
    if k % 2 == 1 {
      assert k == 2 * h + 1 && Pow2(2 * h + 1) == 2 * Pow2(2 * h);
    } else {
      assert k == 2 * h && 1 * Pow2(2 * h) == Pow2(2 * h);
    }
    if k >= 2 {
      Pow2Quarter(k - 2);
    }
  }

  lemma Pow2Quarter(i: nat)
    ensures Pow2(i + 2) == 4 * Pow2(i)
  {
    assert Pow2(i + 2) == 2 * Pow2(i + 1);
  }

  /** A bit that is not yet zero is a square itself. */
  lemma Half(u: nat, i: nat, bit: nat) returns (c: nat)
    requires bit == Area(u, Pow2(i)) / 4 && bit > 0 && u <= 2
    ensures i > 0 && c == Pow2(i - 1) && Pow2(i) == 2 * c && bit == Area(u, c) && Area(u, 2 * c) == 4 * Area(u, c)
  {
    assert i == 0 ==> Area(u, Pow2(i)) == u;
    c := Pow2(i - 1);
    AreaDoubles(u, c);
  }

  /** One digit: taken if what is left allows it. */
  lemma NextDigit(src: nat, bit: nat, num: int, res: nat, u: nat, y: nat, c: nat)
    requires Digits(src, bit, num, res, u, y, 2 * c) && bit == Area(u, c)
    ensures num >= res + bit ==> Digits(src, bit / 4, num - (res + bit), res / 2 + bit, u, y + c, c)
    ensures num < res + bit ==> Digits(src, bit / 4, num, res / 2, u, y, c)
  {
    AreaGrows(u, y, c);
    hide Area;
    assert (y + c) + c == y + 2 * c;
  }

  /** The root of the source in units, whatever the length of the source: the square root if the source is from an odd
      power of two up to the next even one, and otherwise for zero and six small numbers only. */
  method Sqrt(src: nat) returns (res: nat)
    ensures var u := Unit(src); res % u == 0 && IsRoot(res / u, src / u)
    ensures forall k :: k > 0 && Pow2(2 * k - 1) <= src < Pow2(2 * k) ==> IsRoot(res, src)
    ensures forall k: nat :: Pow2(2 * k) <= src < Pow2(2 * k + 1) ==>
              (IsRoot(res, src) <==> src in {4, 5, 6, 7, 16, 17})
    ensures src == 0 ==> res == 0
  {
    hide Pow2, SetBit, Unit, BitLength, Area, IsRoot, Digits;
    var bit: nat := SetBit(BitLength(src) - 2);
    var num := src;
    res := 0;
    ghost var u := Unit(src);
    ghost var i: nat, y: nat := BitLength(src) / 2, 0;
    FirstBit(src);
    while bit > num
      invariant bit == Area(u, Pow2(i)) / 4 && src < Area(u, Pow2(i))
      decreases bit
    {
      ghost var c := Half(u, i, bit);
      i := i - 1;
      bit := bit / 4;
    }
    NoDigits(src, bit, u, Pow2(i));
    while bit != 0
      invariant Digits(src, bit, num, res, u, y, Pow2(i))
      decreases bit
    {
      DigitsLeft(src, bit, num, res, u, y, Pow2(i));
      ghost var c := Half(u, i, bit);
      NextDigit(src, bit, num, res, u, y, c);
      var rpb := res + bit;
      res := res / 2;
      if num >= rpb {
        num := num - rpb;
        res := res + bit;
        y := y + c;
      }
      i := i - 1;
      bit := bit / 4;
    }
    LastDigits(src, num, res, u, y, i);
    Exactly(src, res);
  }

  lemma NoDigits(src: nat, bit: nat, u: nat, c: nat)
    requires bit == Area(u, c) / 4 && src < Area(u, c)
    ensures Digits(src, bit, src, 0, u, 0, c)
  {
    AreaOfNothing(u);
  }

  lemma DigitsLeft(src: nat, bit: nat, num: int, res: nat, u: nat, y: nat, c: nat)
    requires Digits(src, bit, num, res, u, y, c)
    ensures bit == Area(u, c) / 4 && num >= 0
  {
  }

  lemma LastDigits(src: nat, num: int, res: nat, u: nat, y: nat, i: nat)
    requires Digits(src, 0, num, res, u, y, Pow2(i)) && (u == 1 || u == 2)
    ensures res % u == 0 && IsRoot(res / u, src / u)
  {
    hide Pow2, Area, IsRoot;
    LastDigit(u, i);
    Finish(src, u, y);
  }

  lemma Exactly(src: nat, res: nat)
    requires var u := Unit(src); res % u == 0 && IsRoot(res / u, src / u)
    ensures forall k :: k > 0 && Pow2(2 * k - 1) <= src < Pow2(2 * k) ==> IsRoot(res, src)
    ensures forall k: nat :: Pow2(2 * k) <= src < Pow2(2 * k + 1) ==>
              (IsRoot(res, src) <==> src in {4, 5, 6, 7, 16, 17})
    ensures src == 0 ==> res == 0
  {
    forall k | k > 0 && Pow2(2 * k - 1) <= src < Pow2(2 * k)
      ensures IsRoot(res, src)
    {
      RightBetween(src, res, k);
    }
    forall k: nat | Pow2(2 * k) <= src < Pow2(2 * k + 1)
      ensures IsRoot(res, src) <==> src in {4, 5, 6, 7, 16, 17}
    {
      WrongBetween(src, res, k);
    }
    if src == 0 {
      assert Unit(src) == 1 && res / 1 == res;
      assert res * res <= 0;
    }
  }

  lemma AreaOfNothing(u: nat)
    ensures Area(u, 0) == 0
  {
  }

  lemma LastDigit(u: nat, i: nat)
    requires Area(u, Pow2(i)) / 4 == 0 && u > 0
    ensures Pow2(i) == 1
  {
    if i > 0 {
      AreaDoubles(u, Pow2(i - 1));
      AreaPositive(u, Pow2(i - 1));
    }
  }

  lemma AreaPositive(u: nat, z: nat)
    requires u > 0 && z > 0
    ensures Area(u, z) > 0
  {
    assert z * z >= 1;
  }

  lemma Finish(src: nat, u: nat, y: nat)
    requires u == 1 || u == 2
    requires Area(u, y) <= src < Area(u, y + 1)
    ensures y * 1 * u % u == 0 && IsRoot(y * 1 * u / u, src / u)
  {
  }

  /** The result is the square root exactly for an even bit length and for six small numbers besides. */
  lemma CorrectIff(src: nat, res: nat)
    requires var u := Unit(src); res % u == 0 && IsRoot(res / u, src / u)
    ensures IsRoot(res, src) <==> BitLength(src) % 2 == 0 || src in {4, 5, 6, 7, 16, 17}
  {
    hide IsRoot, BitLength;
    OddLength(src);
    if Unit(src) == 1 {
      assert res / 1 == res && src / 1 == src;
    } else {
      EvenRoot(src, res);
    }
  }

  /** Between an odd power of two and the next even one, the result is the square root of the number. */
  lemma RightBetween(src: nat, res: nat, k: nat)
    requires var u := Unit(src); res % u == 0 && IsRoot(res / u, src / u)
    requires k > 0 && Pow2(2 * k - 1) <= src < Pow2(2 * k)
    ensures IsRoot(res, src)
  {
    hide Pow2, IsRoot;
    BitLengthIff(src, 2 * k);
    assert (2 * k) % 2 == 0;
    CorrectIff(src, res);
  }

  /** Between an even power of two and the next odd one, it is so for six small numbers only. */
  lemma WrongBetween(src: nat, res: nat, k: nat)
    requires var u := Unit(src); res % u == 0 && IsRoot(res / u, src / u)
    requires Pow2(2 * k) <= src < Pow2(2 * k + 1)
    ensures IsRoot(res, src) <==> src in {4, 5, 6, 7, 16, 17}
  {
    hide Pow2, IsRoot;
    BitLengthIff(src, 2 * k + 1);
    assert (2 * k + 1) % 2 == 1;
    CorrectIff(src, res);
  }

  lemma OddLength(src: nat)
    ensures BitLength(src) % 2 == 1 ==> src > 0
  {
  }

  lemma EvenRoot(src: nat, res: nat)
    requires src > 0 && res % 2 == 0 && IsRoot(res / 2, src / 2)
    ensures IsRoot(res, src) <==> src in {4, 5, 6, 7, 16, 17}
  {
    hide IsRoot;
    var t := res / 2;
    assert res == 2 * t;
    Doubled(src, t);
  }

  lemma Doubled(src: nat, t: nat)
    requires IsRoot(t, src / 2) && src > 0
    ensures IsRoot(2 * t, src) <==> src in {4, 5, 6, 7, 16, 17}
  {
    if t > 2 {
      Larger(src, t);
    }
  }

  lemma Larger(src: nat, t: nat)
    requires IsRoot(t, src / 2) && t > 2
    ensures src >= 18 && !IsRoot(2 * t, src)
  {
    assert t * t >= 3 * t;
    assert (t + 1) * (t + 1) == t * t + 2 * t + 1;
    assert (2 * t) * (2 * t) == 4 * (t * t);
  }
}
