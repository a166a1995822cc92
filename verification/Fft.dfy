/** src/FFT.cpp: the scalar and the four-lane radix-2 transforms, writing both output arrays in place. */
module Fft {
  import opened ExactComplex
  import opened FourierSum

  ghost predicate IsPowerOfTwo(n: nat) {
    n == 1 || (n > 1 && n % 2 == 0 && IsPowerOfTwo(n / 2))
  }

  /** The size handled d levels down the recursion. */
  function Halved(cnt: nat, d: nat): nat {
    if d == 0 then cnt else Halved(cnt / 2, d - 1)
  }

  lemma {:induction false} HalvedShrinks(cnt: nat, d: nat)
    ensures Halved(cnt, d) <= cnt
  {
    if d > 0 {
      HalvedShrinks(cnt / 2, d - 1);
    }
  }

  lemma {:induction false} PowerOfTwoReachesFour(cnt: nat) returns (d: nat)
    requires IsPowerOfTwo(cnt) && cnt >= 4
    ensures Halved(cnt, d) == 4
  {
    if cnt == 4 {
      d := 0;
    } else {
      d := PowerOfTwoReachesFour(cnt / 2);
      d := d + 1;
    }
  }

  /** For a power of two, the recursion meets its base case exactly from 4 on; 1 and 2 halve past it for ever. */
  lemma RecursionEndsIff(cnt: nat)
    requires IsPowerOfTwo(cnt)
    ensures (exists d: nat :: Halved(cnt, d) == 4) <==> cnt >= 4
  {
    if cnt >= 4 {
      var d := PowerOfTwoReachesFour(cnt);
    } else {
      forall d: nat
        ensures Halved(cnt, d) != 4
      {
        HalvedShrinks(cnt, d);
      }
    }
  }

  lemma PowerOfTwoAligned(n: nat, o: nat)
    requires IsPowerOfTwo(n) && n >= 4 && o % 4 == 0
    ensures n % 4 == 0 && (o + n) % 4 == 0
  {
    var half := n / 2;
    assert IsPowerOfTwo(half) && half >= 2;
    assert n == 2 * half && half == 2 * (half / 2);
    hide IsPowerOfTwo;
    FourTimes(n, half / 2);
    FourTimes(o + n, o / 4 + half / 2);
  }

  lemma FourTimes(n: nat, k: nat)
    requires n == 4 * k
    ensures n % 4 == 0
  {
  }

  /** The cnt samples found from `first` on, `stride` apart. */
  function Strided(a: seq<real>, first: nat, stride: nat, cnt: nat): (x: seq<real>)
    requires cnt > 0 && first + stride * (cnt - 1) < |a|
    ensures |x| == cnt
  {
    seq(cnt, j requires 0 <= j < cnt => StridedAt(a, first, stride, cnt, j))
  }

  function StridedAt(a: seq<real>, first: nat, stride: nat, cnt: nat, j: nat): real
    requires j < cnt && first + stride * (cnt - 1) < |a|
  {
    assert stride * j <= stride * (cnt - 1);
    a[first + stride * j]
  }

  lemma StridedFour(a: seq<real>, first: nat, stride: nat)
    requires first + stride * 3 < |a|
    ensures first + stride * 2 < |a| && first + stride < |a|
    ensures var x := Strided(a, first, stride, 4);
            x[0] == a[first] && x[1] == a[first + stride] &&
            x[2] == a[first + stride * 2] && x[3] == a[first + stride * 3]
  {
    assert stride * 0 == 0 && stride * 1 == stride;
  }

  lemma StrideIndices(stride: nat, half: nat, i: nat)
    requires half > 0 && stride > 0
    ensures stride * (2 * half - 1) == 2 * stride * (half - 1) + stride
    ensures stride * (2 * i) == (2 * stride) * i
    ensures stride * (2 * i + 1) == stride + (2 * stride) * i
  {
  }

  /** The two recursive calls see the even and the odd samples. */
  lemma StridedHalves(a: seq<real>, first: nat, stride: nat, half: nat)
    requires half > 0 && stride > 0 && first + stride * (2 * half - 1) < |a|
    ensures first + (2 * stride) * (half - 1) < |a|
    ensures first + stride + (2 * stride) * (half - 1) < |a|
    ensures Evens(Strided(a, first, stride, 2 * half)) == Strided(a, first, 2 * stride, half)
    ensures Odds(Strided(a, first, stride, 2 * half)) == Strided(a, first + stride, 2 * stride, half)
  {
    StrideIndices(stride, half, 0);
    var x, e, o := Strided(a, first, stride, 2 * half), Strided(a, first, 2 * stride, half),
        Strided(a, first + stride, 2 * stride, half);
    forall i | 0 <= i < half
      ensures x[2 * i] == e[i] && x[2 * i + 1] == o[i]
    {
      StrideIndices(stride, half, i);
      assert x[2 * i] == StridedAt(a, first, stride, 2 * half, 2 * i);
      assert x[2 * i + 1] == StridedAt(a, first, stride, 2 * half, 2 * i + 1);
    }
    assert Evens(x) == e;
    assert Odds(x) == o;
  }

  function Cell(a: seq<real>, b: seq<real>, i: nat): Complex
    requires i < |a| && i < |b|
  {
    Complex(a[i], b[i])
  }

  /** The cells from o on hold the spectrum of x. */
  ghost predicate HoldsSpectrum(t: Trig, x: seq<real>, a: seq<real>, b: seq<real>, o: nat)
    requires |x| > 0 && o + |x| <= |a| && o + |x| <= |b|
  {
    forall k :: o <= k < o + |x| ==> Cell(a, b, k) == Dft(t, x, k - o)
  }

  /** Nothing outside the n cells from o on has changed. */
  ghost predicate SameOutside(a: seq<real>, was: seq<real>, o: nat, n: nat) {
    |a| == |was| && forall i :: 0 <= i < |a| && !(o <= i < o + n) ==> a[i] == was[i]
  }

  /** What the unrolled base case computes, read off the definition of the transform. */
  lemma DftOfFour(t: Trig, x: seq<real>)
    requires Lawful(t) && |x| == 4
    ensures Dft(t, x, 0) == Complex(x[0] + x[2] + (x[1] + x[3]), 0.0)
    ensures Dft(t, x, 1) == Complex(x[0] - x[2], -(x[1] - x[3]))
    ensures Dft(t, x, 2) == Complex(x[0] + x[2] - (x[1] + x[3]), 0.0)
    ensures Dft(t, x, 3) == Complex(x[0] - x[2], x[1] - x[3])
  {
    var e, o := Evens(x), Odds(x);
    DftOfTwo(t, e);
    DftOfTwo(t, o);
    Butterfly(t, x, 2, 0);
    Butterfly(t, x, 2, 1);
    RootZero(t, 4);
    RootQuarter(t);
  }

  lemma DftOfTwo(t: Trig, x: seq<real>)
    requires Lawful(t) && |x| == 2
    ensures Dft(t, x, 0) == Complex(x[0] + x[1], 0.0)
    ensures Dft(t, x, 1) == Complex(x[0] - x[1], 0.0)
  {
    RootZero(t, 2);
    RootQuarter(t);
    forall m | 0 <= m < 2
      ensures Dft(t, x, m) == Root(t, 2, 0).Scale(x[0]).Plus(Root(t, 2, m).Scale(x[1]))
    {
      assert PartialDft(t, x, 2, m, 1) == ZERO.Plus(Root(t, 2, 0 * m).Scale(x[0]));
      assert PartialDft(t, x, 2, m, 2) == PartialDft(t, x, 2, m, 1).Plus(Root(t, 2, 1 * m).Scale(x[1]));
    }
  }

  /** The two 2-point transforms at the leaves: samples 0 and 2 give cells 0 and 1, samples 1 and 3 cells 2 and 3. */
  method PairSums(aIn: array<real>, first: nat, stride: nat, aOut: array<real>, bOut: array<real>, o: nat)
    requires first + stride * 3 < aIn.Length
    requires o + 4 <= aOut.Length && o + 4 <= bOut.Length
    requires aIn != aOut && aIn != bOut && aOut != bOut
    modifies aOut, bOut
    ensures Cell(aOut[..], bOut[..], o) == Complex(aIn[first] + aIn[first + stride * 2], 0.0)
    ensures Cell(aOut[..], bOut[..], o + 1) == Complex(aIn[first] - aIn[first + stride * 2], 0.0)
    ensures Cell(aOut[..], bOut[..], o + 2) == Complex(aIn[first + stride] + aIn[first + stride * 3], 0.0)
    ensures Cell(aOut[..], bOut[..], o + 3) == Complex(aIn[first + stride] - aIn[first + stride * 3], 0.0)
    ensures SameOutside(aOut[..], old(aOut[..]), o, 4)
    ensures SameOutside(bOut[..], old(bOut[..]), o, 4)
  {
    var a0 := aIn[first];
    var a1 := aIn[first + stride * 2];
    aOut[o] := a0 + a1;
    aOut[o + 1] := a0 - a1;
    bOut[o] := 0.0;
    bOut[o + 1] := 0.0;

    a0 := aIn[first + stride];
    a1 := aIn[first + stride * 3];
    aOut[o + 2] := a0 + a1;
    aOut[o + 3] := a0 - a1;
    bOut[o + 2] := 0.0;
    bOut[o + 3] := 0.0;
  }

  /** The three assignments every butterfly makes to each output array. */
  method SumAndDifference(a: array<real>, i: nat, j: nat, tw: real)
    requires i < a.Length && j < a.Length && i != j
    modifies a
    ensures a[..] == Turned(old(a[..]), i, j, tw)
  {
    var tmp := a[i];
    a[i] := a[i] + tw;
    a[j] := tmp - tw;
  }

  method ApplyFft4(ghost t: Trig, aIn: array<real>, first: nat, stride: nat,
                   aOut: array<real>, bOut: array<real>, o: nat)
    requires Lawful(t)
    requires first + stride * 3 < aIn.Length
    requires o + 4 <= aOut.Length && o + 4 <= bOut.Length
    requires aIn != aOut && aIn != bOut && aOut != bOut
    modifies aOut, bOut
    ensures HoldsSpectrum(t, Strided(aIn[..], first, stride, 4), aOut[..], bOut[..], o)
    ensures SameOutside(aOut[..], old(aOut[..]), o, 4)
    ensures SameOutside(bOut[..], old(bOut[..]), o, 4)
  {
    ghost var x := Strided(aIn[..], first, stride, 4);
    StridedFour(aIn[..], first, stride);
    hide Strided, StridedAt, Lawful, Dft, HoldsSpectrum, SameOutside, Turned;
    ghost var wasA, wasB := aOut[..], bOut[..];
    PairSums(aIn, first, stride, aOut, bOut, o);
    ghost var p, q := aOut[..], bOut[..];

    var twA := aOut[o + 2];
    var twB := bOut[o + 2];
    SumAndDifference(aOut, o, o + 2, twA);
    SumAndDifference(bOut, o, o + 2, twB);

    TurnedAt(p, o, o + 2, p[o + 2], o + 3);
    TurnedAt(q, o, o + 2, q[o + 2], o + 3);
    twA := bOut[o + 3];
    twB := -aOut[o + 3];
    assert twA == q[o + 3] && twB == -p[o + 3];
    SumAndDifference(aOut, o + 1, o + 3, twA);
    SumAndDifference(bOut, o + 1, o + 3, twB);
    FourOutputs(t, x, p, q, aOut[..], bOut[..], o);
    StillSame(aOut[..], p, wasA, o, 4);
    StillSame(bOut[..], q, wasB, o, 4);
  }

  lemma StillSame(a: seq<real>, b: seq<real>, c: seq<real>, o: nat, n: nat)
    requires SameOutside(a, b, o, n) && SameOutside(b, c, o, n)
    ensures SameOutside(a, c, o, n)
  {
  }

  /** Cells i and j after a butterfly whose turned term is tw. */
  function Turned(s: seq<real>, i: nat, j: nat, tw: real): (r: seq<real>)
    requires i < |s| && j < |s|
    ensures |r| == |s|
  {
    s[i := s[i] + tw][j := s[i] - tw]
  }

  lemma TurnedAt(s: seq<real>, i: nat, j: nat, tw: real, k: nat)
    requires i < |s| && j < |s| && k < |s| && k != i && k != j
    ensures Turned(s, i, j, tw)[k] == s[k]
  {
  }

  /** The two outer butterflies of the base case. */
  lemma FourOutputs(t: Trig, x: seq<real>, p: seq<real>, q: seq<real>, a: seq<real>, b: seq<real>, o: nat)
    requires Lawful(t) && |x| == 4 && o + 4 <= |p| && o + 4 <= |q|
    requires Cell(p, q, o) == Complex(x[0] + x[2], 0.0) && Cell(p, q, o + 1) == Complex(x[0] - x[2], 0.0)
    requires Cell(p, q, o + 2) == Complex(x[1] + x[3], 0.0) && Cell(p, q, o + 3) == Complex(x[1] - x[3], 0.0)
    requires a == Turned(Turned(p, o, o + 2, p[o + 2]), o + 1, o + 3, q[o + 3])
    requires b == Turned(Turned(q, o, o + 2, q[o + 2]), o + 1, o + 3, -p[o + 3])
    ensures HoldsSpectrum(t, x, a, b, o)
    ensures SameOutside(a, p, o, 4) && SameOutside(b, q, o, 4)
  {
    hide Lawful, Dft;
    DftOfFour(t, x);
    forall k | o <= k < o + 4
      ensures Cell(a, b, k) == Dft(t, x, k - o)
    {
      assert k == o || k == o + 1 || k == o + 2 || k == o + 3;
    }
  }

  /** The two cells of pair l, `half` cells apart. */
  ghost predicate PairIs(a: seq<real>, b: seq<real>, o: nat, half: nat, l: nat, low: Complex, high: Complex)
    requires l < half && o + 2 * half <= |a| && o + 2 * half <= |b|
  {
    Cell(a, b, o + l) == low && Cell(a, b, o + half + l) == high
  }

  /** Pair l has become the sum and the difference of its first cell and its turned second cell. */
  ghost predicate PairTurned(t: Trig, a: seq<real>, b: seq<real>, a': seq<real>, b': seq<real>, o: nat, half: nat,
                             l: nat)
    requires l < half && o + 2 * half <= |a| && |a| == |a'| && o + 2 * half <= |b| && |b| == |b'|
  {
    var turned := Root(t, 2 * half, l).Times(Cell(a, b, o + half + l));
    PairIs(a', b', o, half, l, Cell(a, b, o + l).Plus(turned), Cell(a, b, o + l).Minus(turned))
  }

  lemma PairComputed(t: Trig, a: seq<real>, b: seq<real>, a': seq<real>, b': seq<real>, o: nat, half: nat, l: nat,
                     c: real, s: real, ai: real, bi: real, aj: real, bj: real)
    requires l < half && o + 2 * half <= |a| && |a| == |a'| && o + 2 * half <= |b| && |b| == |b'|
    requires Complex(c, s) == Root(t, 2 * half, l)
    requires a[o + l] == ai && b[o + l] == bi && a[o + half + l] == aj && b[o + half + l] == bj
    requires a'[o + l] == ai + (c * aj - s * bj) && a'[o + half + l] == ai - (c * aj - s * bj)
    requires b'[o + l] == bi + (c * bj + s * aj) && b'[o + half + l] == bi - (c * bj + s * aj)
    ensures PairTurned(t, a, b, a', b', o, half, l)
  {
    hide Root;
  }

  ghost predicate PairKept(a: seq<real>, b: seq<real>, a': seq<real>, b': seq<real>, o: nat, half: nat, l: nat)
    requires l < half && o + 2 * half <= |a| && |a| == |a'| && o + 2 * half <= |b| && |b| == |b'|
  {
    PairIs(a', b', o, half, l, Cell(a, b, o + l), Cell(a, b, o + half + l))
  }

  /** n butterflies at once, on the pairs from i on; everything else stays. */
  ghost predicate PairsTurned(t: Trig, a: seq<real>, b: seq<real>, a': seq<real>, b': seq<real>,
                              o: nat, half: nat, i: nat, n: nat)
    requires i + n <= half && o + 2 * half <= |a| && |a| == |a'| && o + 2 * half <= |b| && |b| == |b'|
  {
    && (forall l :: i <= l < i + n ==> PairTurned(t, a, b, a', b', o, half, l))
    && (forall l :: 0 <= l < half && !(i <= l < i + n) ==> PairKept(a, b, a', b', o, half, l))
    && SameOutside(a', a, o, 2 * half) && SameOutside(b', b, o, 2 * half)
  }

  ghost predicate Done(t: Trig, x: seq<real>, a: seq<real>, b: seq<real>, o: nat, half: nat, l: nat)
    requires l < half && |x| == 2 * half && o + 2 * half <= |a| && o + 2 * half <= |b|
  {
    PairIs(a, b, o, half, l, Dft(t, x, l), Dft(t, x, half + l))
  }

  ghost predicate Waiting(t: Trig, x: seq<real>, a: seq<real>, b: seq<real>, o: nat, half: nat, l: nat)
    requires l < half && |x| == 2 * half && o + 2 * half <= |a| && o + 2 * half <= |b|
  {
    PairIs(a, b, o, half, l, Dft(t, Evens(x), l), Dft(t, Odds(x), l))
  }

  /** Pairs below i hold the big spectrum, the others the two small ones. */
  ghost predicate Halfway(t: Trig, x: seq<real>, a: seq<real>, b: seq<real>, o: nat, half: nat, i: nat)
    requires |x| == 2 * half && o + 2 * half <= |a| && o + 2 * half <= |b|
  {
    forall l :: 0 <= l < half ==> if l < i then Done(t, x, a, b, o, half, l) else Waiting(t, x, a, b, o, half, l)
  }

  /** Before the loop: the second recursive call has left the first one's cells alone. */
  lemma HalfwayStart(t: Trig, x: seq<real>, a: seq<real>, b: seq<real>, a': seq<real>, b': seq<real>, o: nat, half: nat)
    requires half > 0 && |x| == 2 * half && o + 2 * half <= |a| && o + 2 * half <= |b|
    requires HoldsSpectrum(t, Evens(x), a, b, o)
    requires SameOutside(a', a, o + half, half) && SameOutside(b', b, o + half, half)
    requires HoldsSpectrum(t, Odds(x), a', b', o + half)
    ensures Halfway(t, x, a', b', o, half, 0)
  {
    hide Dft, Evens, Odds;
    forall l | 0 <= l < half
      ensures Waiting(t, x, a', b', o, half, l)
    {
      assert o + l - o == l && o + half + l - (o + half) == l;
      assert Cell(a', b', o + l) == Cell(a, b, o + l);
    }
  }

  lemma HalfwayStep(t: Trig, x: seq<real>, a: seq<real>, b: seq<real>, a': seq<real>, b': seq<real>,
                    o: nat, half: nat, i: nat, n: nat)
    requires Lawful(t) && i + n <= half && |x| == 2 * half
    requires o + 2 * half <= |a| && |a| == |a'| && o + 2 * half <= |b| && |b| == |b'|
    requires Halfway(t, x, a, b, o, half, i)
    requires PairsTurned(t, a, b, a', b', o, half, i, n)
    ensures Halfway(t, x, a', b', o, half, i + n)
  {
    hide Dft, Evens, Odds, Complex.Times, Complex.Plus, Complex.Minus, Root, Lawful, Cell;
    forall l | 0 <= l < half
      ensures if l < i + n then Done(t, x, a', b', o, half, l) else Waiting(t, x, a', b', o, half, l)
    {
      if i <= l < i + n {
        assert Waiting(t, x, a, b, o, half, l) && PairTurned(t, a, b, a', b', o, half, l);
        Butterfly(t, x, half, l);
      } else {
        assert PairKept(a, b, a', b', o, half, l);
        assert if l < i then Done(t, x, a, b, o, half, l) else Waiting(t, x, a, b, o, half, l);
      }
    }
  }

  lemma HalfwayEnd(t: Trig, x: seq<real>, a: seq<real>, b: seq<real>, o: nat, half: nat)
    requires half > 0 && |x| == 2 * half && o + 2 * half <= |a| && o + 2 * half <= |b|
    requires Halfway(t, x, a, b, o, half, half)
    ensures HoldsSpectrum(t, x, a, b, o)
  {
    hide Dft;
    forall k | o <= k < o + |x|
      ensures Cell(a, b, k) == Dft(t, x, k - o)
    {
      var l := if k < o + half then k - o else k - o - half;
      assert Done(t, x, a, b, o, half, l);
      assert k == if k < o + half then o + l else o + half + l;
      assert k - o == if k < o + half then l else half + l;
    }
  }

  lemma PairWritten(a: seq<real>, b: seq<real>, o: nat, half: nat, i: nat, x: real, y: real, u: real, v: real)
    requires i < half && o + 2 * half <= |a| && o + 2 * half <= |b|
    ensures var p, q := o + i, o + half + i; var a', b' := a[p := x][q := y], b[p := u][q := v];
            && (forall l :: 0 <= l < half && l != i ==> PairKept(a, b, a', b', o, half, l))
            && SameOutside(a', a, o, 2 * half) && SameOutside(b', b, o, 2 * half)
  {
  }

  lemma PairStored(t: Trig, a: seq<real>, b: seq<real>, a': seq<real>, b': seq<real>, o: nat, half: nat, i: nat,
                   c: real, s: real, ai: real, bi: real, aj: real, bj: real, twA: real, twB: real)
    requires i < half && o + 2 * half <= |a| && o + 2 * half <= |b|
    requires Complex(c, s) == Root(t, 2 * half, i)
    requires a[o + i] == ai && b[o + i] == bi && a[o + half + i] == aj && b[o + half + i] == bj
    requires twA == c * aj - s * bj && twB == c * bj + s * aj
    requires a' == a[o + i := ai + twA][o + half + i := ai - twA]
    requires b' == b[o + i := bi + twB][o + half + i := bi - twB]
    ensures PairsTurned(t, a, b, a', b', o, half, i, 1)
  {
    hide Root, PairTurned, PairKept, SameOutside;
    PairComputed(t, a, b, a', b', o, half, i, c, s, ai, bi, aj, bj);
    PairWritten(a, b, o, half, i, ai + twA, ai - twA, bi + twB, bi - twB);
  }

  /** One pass of the scalar loop body: cells i and j = half + i, turned by (twCos, twSin). */
  method TurnPair(ghost t: Trig, aOut: array<real>, bOut: array<real>, o: nat, half: nat, i: nat, twCos: real,
                  twSin: real)
    requires aOut != bOut && i < half && o + 2 * half <= aOut.Length && o + 2 * half <= bOut.Length
    requires Complex(twCos, twSin) == Root(t, 2 * half, i)
    modifies aOut, bOut
    ensures PairsTurned(t, old(aOut[..]), old(bOut[..]), aOut[..], bOut[..], o, half, i, 1)
  {
    hide Root, PairsTurned;
    ghost var a, b := aOut[..], bOut[..];
    var j := half + i;
    var twA := twCos * aOut[o + j] - twSin * bOut[o + j];
    var twB := twCos * bOut[o + j] + twSin * aOut[o + j];

    SumAndDifference(aOut, o + i, o + j, twA);
    SumAndDifference(bOut, o + i, o + j, twB);
    PairStored(t, a, b, aOut[..], bOut[..], o, half, i, twCos, twSin, a[o + i], b[o + i], a[o + j], b[o + j], twA, twB);
  }

  /** The butterfly loop of the scalar transform. */
  method TurnBasic(t: Trig, ghost x: seq<real>, aOut: array<real>, bOut: array<real>, o: nat, cnt: nat, half: nat)
    requires Lawful(t) && half > 0 && cnt == 2 * half && |x| == cnt
    requires o + cnt <= aOut.Length && o + cnt <= bOut.Length && aOut != bOut
    requires Halfway(t, x, aOut[..], bOut[..], o, half, 0)
    modifies aOut, bOut
    ensures HoldsSpectrum(t, x, aOut[..], bOut[..], o)
    ensures SameOutside(aOut[..], old(aOut[..]), o, cnt) && SameOutside(bOut[..], old(bOut[..]), o, cnt)
  {
    hide Dft, Evens, Odds, Lawful, Complex.Times, Complex.Plus, Complex.Minus;
    var twMul := -2.0 * t.pi / (cnt as real);
    var twAng := 0.0;
    for i := 0 to half
      invariant twAng == Angle(t, cnt, i)
      invariant Halfway(t, x, aOut[..], bOut[..], o, half, i)
      invariant SameOutside(aOut[..], old(aOut[..]), o, cnt)
      invariant SameOutside(bOut[..], old(bOut[..]), o, cnt)
    {
      ghost var a, b := aOut[..], bOut[..];
      TurnPair(t, aOut, bOut, o, half, i, t.cos(twAng), t.sin(twAng));
      HalfwayStep(t, x, a, b, aOut[..], bOut[..], o, half, i, 1);
      AngleSum(t, cnt, i, 1);
      twAng := twAng + twMul;
    }
    HalfwayEnd(t, x, aOut[..], bOut[..], o, half);
  }

  method ApplyFftBasic(t: Trig, aIn: array<real>, first: nat, stride: nat,
                       aOut: array<real>, bOut: array<real>, o: nat, cnt: nat)
    requires Lawful(t)
    requires IsPowerOfTwo(cnt) && cnt >= 4 && stride > 0
    requires first + stride * (cnt - 1) < aIn.Length
    requires o + cnt <= aOut.Length && o + cnt <= bOut.Length
    requires aIn != aOut && aIn != bOut && aOut != bOut
    modifies aOut, bOut
    ensures HoldsSpectrum(t, Strided(aIn[..], first, stride, cnt), aOut[..], bOut[..], o)
    ensures SameOutside(aOut[..], old(aOut[..]), o, cnt) && SameOutside(bOut[..], old(bOut[..]), o, cnt)
    decreases cnt
  {
    if cnt == 4 {
      ApplyFft4(t, aIn, first, stride, aOut, bOut, o);
    } else {
      hide Dft, Evens, Odds, Strided, Lawful;
      var half := cnt / 2;
      var dbl := stride * 2;
      ghost var x := Strided(aIn[..], first, stride, cnt);
      StridedHalves(aIn[..], first, stride, half);
      ApplyFftBasic(t, aIn, first, dbl, aOut, bOut, o, half);
      ghost var a, b := aOut[..], bOut[..];
      ApplyFftBasic(t, aIn, first + stride, dbl, aOut, bOut, o + half, half);
      HalfwayStart(t, x, a, b, aOut[..], bOut[..], o, half);
      TurnBasic(t, x, aOut, bOut, o, cnt, half);
    }
  }

  /** `fft::apply`: the outputs hold the discrete Fourier transform of the first cnt samples. */
  method Apply(t: Trig, aIn: array<real>, aOut: array<real>, bOut: array<real>, cnt: nat)
    requires Lawful(t)
    requires IsPowerOfTwo(cnt) && cnt >= 4
    requires cnt <= aIn.Length && cnt <= aOut.Length && cnt <= bOut.Length
    requires aIn != aOut && aIn != bOut && aOut != bOut
    modifies aOut, bOut
    ensures HoldsSpectrum(t, aIn[..cnt], aOut[..], bOut[..], 0)
    ensures SameOutside(aOut[..], old(aOut[..]), 0, cnt) && SameOutside(bOut[..], old(bOut[..]), 0, cnt)
  {
    ApplyFftBasic(t, aIn, 0, 1, aOut, bOut, 0, cnt);
    assert Strided(aIn[..], 0, 1, cnt) == aIn[..cnt];
  }

  // The four-lane twin.

  /** An SSE register of four floats. */
  datatype M128 = M128(x0: real, x1: real, x2: real, x3: real) {
    function At(l: nat): real
      requires l < 4
    {
      if l == 0 then x0 else if l == 1 then x1 else if l == 2 then x2 else x3
    }

    function Add(y: M128): M128 {
      M128(x0 + y.x0, x1 + y.x1, x2 + y.x2, x3 + y.x3)
    }

    function Sub(y: M128): M128 {
      M128(x0 - y.x0, x1 - y.x1, x2 - y.x2, x3 - y.x3)
    }

    function Mul(y: M128): M128 {
      M128(x0 * y.x0, x1 * y.x1, x2 * y.x2, x3 * y.x3)
    }
  }

  function Set1(x: real): M128 {
    M128(x, x, x, x)
  }

  const LANES_0123 := M128(0.0, 1.0, 2.0, 3.0)
  const LANES_4 := M128(4.0, 4.0, 4.0, 4.0)

  /** An aligned load of four cells. */
  method Load(a: array<real>, i: nat) returns (x: M128)
    requires i % 4 == 0 && i + 4 <= a.Length
    ensures Holds4(a[..], i, x)
  {
    x := M128(a[i], a[i + 1], a[i + 2], a[i + 3]);
  }

  /** An aligned store of four cells. */
  method Store(a: array<real>, i: nat, x: M128)
    requires i % 4 == 0 && i + 4 <= a.Length
    modifies a
    ensures a[i] == x.x0 && a[i + 1] == x.x1 && a[i + 2] == x.x2 && a[i + 3] == x.x3
    ensures SameOutside(a[..], old(a[..]), i, 4)
  {
    a[i] := x.x0;
    a[i + 1] := x.x1;
    a[i + 2] := x.x2;
    a[i + 3] := x.x3;
  }

  function SinCos(t: Trig, x: M128): (sc: (M128, M128)) {
    (M128(t.sin(x.x0), t.sin(x.x1), t.sin(x.x2), t.sin(x.x3)),
     M128(t.cos(x.x0), t.cos(x.x1), t.cos(x.x2), t.cos(x.x3)))
  }

  /** Lane l carries the angle of butterfly i + l. */
  ghost predicate LaneAngles(t: Trig, cnt: nat, i: nat, x: M128)
    requires cnt > 0
  {
    forall l :: 0 <= l < 4 ==> x.At(l) == Angle(t, cnt, i + l)
  }

  lemma FirstAngles(t: Trig, cnt: nat)
    requires cnt > 0
    ensures LaneAngles(t, cnt, 0, Set1(TwiddleStep(t, cnt)).Mul(LANES_0123))
  {
  }

  /** The additive update: all four lanes move on by four steps. */
  lemma NextAngles(t: Trig, cnt: nat, i: nat, x: M128)
    requires cnt > 0 && LaneAngles(t, cnt, i, x)
    ensures LaneAngles(t, cnt, i + 4, x.Add(Set1(TwiddleStep(t, cnt)).Mul(LANES_4)))
  {
    var y := x.Add(Set1(TwiddleStep(t, cnt)).Mul(LANES_4));
    forall l | 0 <= l < 4
      ensures y.At(l) == Angle(t, cnt, i + 4 + l)
    {
      AngleSum(t, cnt, i + l, 4);
      assert i + 4 + l == (i + l) + 4;
      assert y.At(l) == x.At(l) + Angle(t, cnt, 4);
    }
  }

  /** Four cells from p on hold register x. */
  ghost predicate Holds4(a: seq<real>, p: nat, x: M128)
    requires p + 4 <= |a|
  {
    a[p] == x.x0 && a[p + 1] == x.x1 && a[p + 2] == x.x2 && a[p + 3] == x.x3
  }

  /** Registers low and high were stored at p and at q, and nothing else was written. */
  ghost predicate Stored4(a: seq<real>, a': seq<real>, p: nat, q: nat, low: M128, high: M128)
    requires p + 4 <= |a| && q + 4 <= |a| && |a'| == |a|
  {
    && Holds4(a', p, low) && Holds4(a', q, high)
    && (forall k :: 0 <= k < |a| && !(p <= k < p + 4) && !(q <= k < q + 4) ==> a'[k] == a[k])
  }

  lemma HoldsAt(a: seq<real>, p: nat, x: M128, l: nat)
    requires p + 4 <= |a| && Holds4(a, p, x) && l < 4
    ensures a[p + l] == x.At(l)
  {
    assert l == 0 || l == 1 || l == 2 || l == 3;
  }

  lemma LaneSums(x: M128, y: M128, l: nat)
    requires l < 4
    ensures x.Add(y).At(l) == x.At(l) + y.At(l) && x.Sub(y).At(l) == x.At(l) - y.At(l)
  {
  }

  /** One lane of the complex product. */
  lemma LaneProduct(s: M128, c: M128, x: M128, y: M128, l: nat)
    requires l < 4
    ensures c.Mul(x).Sub(s.Mul(y)).At(l) == c.At(l) * x.At(l) - s.At(l) * y.At(l)
    ensures c.Mul(y).Add(s.Mul(x)).At(l) == c.At(l) * y.At(l) + s.At(l) * x.At(l)
  {
    LaneTimes(c, x, l);
    LaneTimes(s, y, l);
    LaneTimes(c, y, l);
    LaneTimes(s, x, l);
    hide M128.At, M128.Mul, M128.Add, M128.Sub;
    LaneSums(c.Mul(x), s.Mul(y), l);
    LaneSums(c.Mul(y), s.Mul(x), l);
  }

  lemma LaneTimes(x: M128, y: M128, l: nat)
    requires l < 4
    ensures x.Mul(y).At(l) == x.At(l) * y.At(l)
  {
  }

  lemma LaneRoot(t: Trig, cnt: nat, i: nat, angles: M128, l: nat)
    requires cnt > 0 && LaneAngles(t, cnt, i, angles) && l < 4
    ensures var (s, c) := SinCos(t, angles); Complex(c.At(l), s.At(l)) == Root(t, cnt, i + l)
  {
    assert angles.At(l) == Angle(t, cnt, i + l);
  }

  /** Lane by lane, the register arithmetic of the loop body is four butterflies. */
  lemma LanesComputed(t: Trig, a: seq<real>, b: seq<real>, a': seq<real>, b': seq<real>, o: nat, half: nat, i: nat,
                      angles: M128, ai: M128, bi: M128, aj: M128, bj: M128, twA: M128, twB: M128)
    requires i + 4 <= half && o + 2 * half <= |a| && |a| == |a'| && o + 2 * half <= |b| && |b| == |b'|
    requires LaneAngles(t, 2 * half, i, angles)
    requires Holds4(a, o + i, ai) && Holds4(b, o + i, bi) && Holds4(a, o + half + i, aj) && Holds4(b, o + half + i, bj)
    requires var (s, c) := SinCos(t, angles); twA == c.Mul(aj).Sub(s.Mul(bj)) && twB == c.Mul(bj).Add(s.Mul(aj))
    requires Holds4(a', o + i, ai.Add(twA)) && Holds4(a', o + half + i, ai.Sub(twA))
    requires Holds4(b', o + i, bi.Add(twB)) && Holds4(b', o + half + i, bi.Sub(twB))
    ensures forall l :: i <= l < i + 4 ==> PairTurned(t, a, b, a', b', o, half, l)
  {
    hide PairTurned, Root, Holds4, SinCos, LaneAngles, M128.Mul, M128.Add, M128.Sub, M128.At;
    forall l | i <= l < i + 4
      ensures PairTurned(t, a, b, a', b', o, half, l)
    {
      LaneComputed(t, a, b, a', b', o, half, i, angles, ai, bi, aj, bj, twA, twB, l - i);
    }
  }

  lemma LaneComputed(t: Trig, a: seq<real>, b: seq<real>, a': seq<real>, b': seq<real>, o: nat, half: nat, i: nat,
                     angles: M128, ai: M128, bi: M128, aj: M128, bj: M128, twA: M128, twB: M128, l: nat)
    requires i + 4 <= half && o + 2 * half <= |a| && |a| == |a'| && o + 2 * half <= |b| && |b| == |b'| && l < 4
    requires LaneAngles(t, 2 * half, i, angles)
    requires Holds4(a, o + i, ai) && Holds4(b, o + i, bi) && Holds4(a, o + half + i, aj) && Holds4(b, o + half + i, bj)
    requires var (s, c) := SinCos(t, angles); twA == c.Mul(aj).Sub(s.Mul(bj)) && twB == c.Mul(bj).Add(s.Mul(aj))
    requires Holds4(a', o + i, ai.Add(twA)) && Holds4(a', o + half + i, ai.Sub(twA))
    requires Holds4(b', o + i, bi.Add(twB)) && Holds4(b', o + half + i, bi.Sub(twB))
    ensures PairTurned(t, a, b, a', b', o, half, i + l)
  {
    hide PairTurned, Root, Holds4, SinCos, LaneAngles, M128.Mul, M128.Add, M128.Sub, M128.At;
    var (s, c) := SinCos(t, angles);
    LaneRoot(t, 2 * half, i, angles, l);
    HoldsAt(a, o + i, ai, l);
    HoldsAt(b, o + i, bi, l);
    HoldsAt(a, o + half + i, aj, l);
    HoldsAt(b, o + half + i, bj, l);
    HoldsAt(a', o + i, ai.Add(twA), l);
    HoldsAt(a', o + half + i, ai.Sub(twA), l);
    HoldsAt(b', o + i, bi.Add(twB), l);
    HoldsAt(b', o + half + i, bi.Sub(twB), l);
    LaneProduct(s, c, aj, bj, l);
    LaneSums(ai, twA, l);
    LaneSums(bi, twB, l);
    PairComputed(t, a, b, a', b', o, half, i + l, c.At(l), s.At(l), ai.At(l), bi.At(l), aj.At(l), bj.At(l));
  }

  lemma LanesTurned(t: Trig, a: seq<real>, b: seq<real>, a': seq<real>, b': seq<real>, o: nat, half: nat, i: nat,
                    angles: M128, ai: M128, bi: M128, aj: M128, bj: M128, twA: M128, twB: M128)
    requires i + 4 <= half && o + 2 * half <= |a| && |a| == |a'| && o + 2 * half <= |b| && |b| == |b'|
    requires LaneAngles(t, 2 * half, i, angles)
    requires Holds4(a, o + i, ai) && Holds4(b, o + i, bi) && Holds4(a, o + half + i, aj) && Holds4(b, o + half + i, bj)
    requires var (s, c) := SinCos(t, angles); twA == c.Mul(aj).Sub(s.Mul(bj)) && twB == c.Mul(bj).Add(s.Mul(aj))
    requires Stored4(a, a', o + i, o + half + i, ai.Add(twA), ai.Sub(twA))
    requires Stored4(b, b', o + i, o + half + i, bi.Add(twB), bi.Sub(twB))
    ensures PairsTurned(t, a, b, a', b', o, half, i, 4)
  {
    hide PairTurned, Root, Holds4, SinCos, LaneAngles, M128.Mul, M128.Add, M128.Sub;
    LanesComputed(t, a, b, a', b', o, half, i, angles, ai, bi, aj, bj, twA, twB);
  }

  method StorePair(a: array<real>, p: nat, q: nat, low: M128, high: M128)
    requires p % 4 == 0 && q % 4 == 0 && p + 4 <= q && q + 4 <= a.Length
    modifies a
    ensures Stored4(old(a[..]), a[..], p, q, low, high)
  {
    Store(a, p, low);
    Store(a, q, high);
  }

  lemma LanesAligned(o: nat, half: nat, i: nat)
    requires half % 4 == 0 && i % 4 == 0 && o % 4 == 0 && i < half
    ensures (o + i) % 4 == 0 && (o + (half + i)) % 4 == 0 && i + 4 <= half
  {
    var p, q, r := o / 4, half / 4, i / 4;
    assert o == 4 * p && half == 4 * q && i == 4 * r;
    FourTimes(o + i, p + r);
    FourTimes(o + (half + i), p + q + r);
  }

  /** One pass of the four-lane loop body. */
  method TurnLanes(t: Trig, aOut: array<real>, bOut: array<real>, o: nat, half: nat, i: nat, xmm0: M128)
    requires aOut != bOut && half % 4 == 0 && i % 4 == 0 && o % 4 == 0 && i < half
    requires o + 2 * half <= aOut.Length && o + 2 * half <= bOut.Length
    requires LaneAngles(t, 2 * half, i, xmm0)
    modifies aOut, bOut
    ensures PairsTurned(t, old(aOut[..]), old(bOut[..]), aOut[..], bOut[..], o, half, i, 4)
  {
    hide LaneAngles, SinCos, M128.Add, M128.Mul, M128.Sub, PairsTurned, Stored4, Holds4;
    ghost var a, b := aOut[..], bOut[..];
    var j := half + i;
    LanesAligned(o, half, i);
    var (xmm2, xmm1) := SinCos(t, xmm0);
    var xmm3 := Load(aOut, o + j);
    var xmm4 := Load(bOut, o + j);

    var xmm5 := xmm1.Mul(xmm3);
    var xmm6 := xmm2.Mul(xmm4);
    xmm5 := xmm5.Sub(xmm6);

    xmm1 := xmm1.Mul(xmm4);
    xmm2 := xmm2.Mul(xmm3);
    xmm6 := xmm1.Add(xmm2);

    xmm1 := Load(aOut, o + i);
    ghost var ai := xmm1;
    xmm2 := xmm1.Add(xmm5);
    StorePair(aOut, o + i, o + j, xmm2, xmm1.Sub(xmm5));

    xmm1 := Load(bOut, o + i);
    xmm2 := xmm1.Add(xmm6);
    StorePair(bOut, o + i, o + j, xmm2, xmm1.Sub(xmm6));
    LanesTurned(t, a, b, aOut[..], bOut[..], o, half, i, xmm0, ai, xmm1, xmm3, xmm4, xmm5, xmm6);
  }

  /** The butterfly loop of the four-lane transform. */
  method TurnPs(t: Trig, ghost x: seq<real>, aOut: array<real>, bOut: array<real>, o: nat, cnt: nat, half: nat)
    requires Lawful(t) && half > 0 && cnt == 2 * half && |x| == cnt && half % 4 == 0 && o % 4 == 0
    requires o + cnt <= aOut.Length && o + cnt <= bOut.Length && aOut != bOut
    requires Halfway(t, x, aOut[..], bOut[..], o, half, 0)
    modifies aOut, bOut
    ensures HoldsSpectrum(t, x, aOut[..], bOut[..], o)
    ensures SameOutside(aOut[..], old(aOut[..]), o, cnt) && SameOutside(bOut[..], old(bOut[..]), o, cnt)
  {
    hide Dft, Evens, Odds, Lawful, Complex.Times, Complex.Plus, Complex.Minus, LaneAngles, M128.Add, M128.Mul;
    var xmm7 := Set1(-2.0 * t.pi / (cnt as real));
    var xmm0 := xmm7.Mul(LANES_0123);
    xmm7 := xmm7.Mul(LANES_4);
    FirstAngles(t, cnt);
    var i := 0;
    while i < half
      invariant i % 4 == 0 && i <= half
      invariant LaneAngles(t, cnt, i, xmm0)
      invariant Halfway(t, x, aOut[..], bOut[..], o, half, i)
      invariant SameOutside(aOut[..], old(aOut[..]), o, cnt)
      invariant SameOutside(bOut[..], old(bOut[..]), o, cnt)
    {
      ghost var a, b := aOut[..], bOut[..];
      TurnLanes(t, aOut, bOut, o, half, i, xmm0);
      HalfwayStep(t, x, a, b, aOut[..], bOut[..], o, half, i, 4);
      NextAngles(t, cnt, i, xmm0);
      xmm0 := xmm0.Add(xmm7);
      i := i + 4;
    }
    HalfwayEnd(t, x, aOut[..], bOut[..], o, half);
  }

  method ApplyFftPs(t: Trig, aIn: array<real>, first: nat, stride: nat,
                    aOut: array<real>, bOut: array<real>, o: nat, cnt: nat)
    requires Lawful(t)
    requires IsPowerOfTwo(cnt) && cnt >= 4 && stride > 0 && o % 4 == 0
    requires first + stride * (cnt - 1) < aIn.Length
    requires o + cnt <= aOut.Length && o + cnt <= bOut.Length
    requires aIn != aOut && aIn != bOut && aOut != bOut
    modifies aOut, bOut
    ensures HoldsSpectrum(t, Strided(aIn[..], first, stride, cnt), aOut[..], bOut[..], o)
    ensures SameOutside(aOut[..], old(aOut[..]), o, cnt) && SameOutside(bOut[..], old(bOut[..]), o, cnt)
    decreases cnt
  {
    if cnt == 4 {
      ApplyFft4(t, aIn, first, stride, aOut, bOut, o);
    } else {
      hide Dft, Evens, Odds, Strided, Lawful;
      var half := cnt / 2;
      var dbl := stride * 2;
      ghost var x := Strided(aIn[..], first, stride, cnt);
      StridedHalves(aIn[..], first, stride, half);
      PowerOfTwoAligned(half, o);
      ApplyFftPs(t, aIn, first, dbl, aOut, bOut, o, half);
      ghost var a, b := aOut[..], bOut[..];
      ApplyFftPs(t, aIn, first + stride, dbl, aOut, bOut, o + half, half);
      HalfwayStart(t, x, a, b, aOut[..], bOut[..], o, half);
      TurnPs(t, x, aOut, bOut, o, cnt, half);
    }
  }

  /** `fft::applySSE`: the same outputs as `fft::apply`, both being the discrete Fourier transform. */
  method ApplySse(t: Trig, aIn: array<real>, aOut: array<real>, bOut: array<real>, cnt: nat)
    requires Lawful(t)
    requires IsPowerOfTwo(cnt) && cnt >= 4
    requires cnt <= aIn.Length && cnt <= aOut.Length && cnt <= bOut.Length
    requires aIn != aOut && aIn != bOut && aOut != bOut
    modifies aOut, bOut
    ensures HoldsSpectrum(t, aIn[..cnt], aOut[..], bOut[..], 0)
    ensures SameOutside(aOut[..], old(aOut[..]), 0, cnt) && SameOutside(bOut[..], old(bOut[..]), 0, cnt)
  {
    ApplyFftPs(t, aIn, 0, 1, aOut, bOut, 0, cnt);
    assert Strided(aIn[..], 0, 1, cnt) == aIn[..cnt];
  }

  /** Two transforms of the same samples leave the same cells: the twins agree. */
  lemma SpectrumDetermined(t: Trig, x: seq<real>, a: seq<real>, b: seq<real>, a': seq<real>, b': seq<real>)
    requires |x| > 0 && |x| <= |a| && |x| <= |b| && |x| <= |a'| && |x| <= |b'|
    requires HoldsSpectrum(t, x, a, b, 0) && HoldsSpectrum(t, x, a', b', 0)
    ensures a[..|x|] == a'[..|x|] && b[..|x|] == b'[..|x|]
  {
    hide Dft;
    forall k | 0 <= k < |x|
      ensures a[k] == a'[k] && b[k] == b'[k]
    {
      assert Cell(a, b, k) == Cell(a', b', k);
    }
  }
}
