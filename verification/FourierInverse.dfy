/** The transform has an inverse: turning every bin back by its own frequency gives the samples again. */
module FourierInverse {
  import opened ExactComplex
  import opened FourierSum
  import opened Fft

  // Complex sums and products.

  lemma PlusAssociates(a: Complex, b: Complex, c: Complex)
    ensures a.Plus(b).Plus(c) == a.Plus(b.Plus(c))
  {
  }

  lemma TimesCommutes(a: Complex, b: Complex)
    ensures a.Times(b) == b.Times(a)
  {
  }

  lemma TimesAssociates(a: Complex, b: Complex, c: Complex)
    ensures a.Times(b).Times(c) == a.Times(b.Times(c))
  {
    assert (a.re * b.re - a.im * b.im) * c.re == a.re * (b.re * c.re) - a.im * (b.im * c.re);
    assert (a.re * b.re - a.im * b.im) * c.im == a.re * (b.re * c.im) - a.im * (b.im * c.im);
    assert (a.re * b.im + a.im * b.re) * c.re == a.re * (b.im * c.re) + a.im * (b.re * c.re);
    assert (a.re * b.im + a.im * b.re) * c.im == a.re * (b.im * c.im) + a.im * (b.re * c.im);
  }

  /** Only zero is left alone by a factor that is not one. */
  lemma OnlyZeroStays(s: Complex, w: Complex)
    requires w.Times(s) == s && w != ONE
    ensures s == ZERO
  {
    var u, v := w.re - 1.0, w.im;
    assert u * s.re - v * s.im == 0.0 && u * s.im + v * s.re == 0.0;
    assert (u * u + v * v) * s.re == u * (u * s.re - v * s.im) + v * (u * s.im + v * s.re) == 0.0;
    assert (u * u + v * v) * s.im == u * (u * s.im + v * s.re) - v * (u * s.re - v * s.im) == 0.0;
    assert u * u + v * v > 0.0;
  }

  /** What has one inverse has no other. */
  lemma SameInverse(u: Complex, v: Complex, w: Complex)
    requires u.Times(w) == ONE && v.Times(w) == ONE
    ensures u == v
  {
    hide Complex.Times;
    TimesCommutes(v, w);
    TimesAssociates(u, w, v);
    TimesCommutes(ONE, v);
    TimesOne(u);
    TimesOne(v);
  }

  // Roots of unity.

  /** Turning forward by the fraction p / n. */
  function Forward(t: Trig, n: nat, p: nat): Complex
    requires n > 0
  {
    Exp(t, ForwardAngle(t, n, p))
  }

  /** The angle of p / n of a turn. */
  function ForwardAngle(t: Trig, n: nat, p: nat): (x: real)
    requires n > 0
  {
    (p as real) * (2.0 * t.pi / (n as real))
  }

  lemma SameExp(t: Trig, x: real, y: real)
    requires x == y
    ensures t.cos(x) == t.cos(y) && t.sin(x) == t.sin(y)
  {
  }

  lemma ForwardAt(t: Trig, n: nat, p: nat, x: real)
    requires n > 0 && x * (n as real) == 2.0 * t.pi * (p as real)
    ensures Forward(t, n, p) == Complex(t.cos(x), t.sin(x))
  {
    QuotientIs(t.pi, n as real, p as real, x);
    SameExp(t, ForwardAngle(t, n, p), x);
  }

  lemma QuotientIs(pi: real, n: real, p: real, x: real)
    requires n > 0.0 && x * n == 2.0 * pi * p
    ensures p * (2.0 * pi / n) == x
  {
    var a := 2.0 * pi / n;
    assert a * n == 2.0 * pi;
    assert (p * a) * n == p * (a * n);
    assert (x - p * a) * n == 0.0;
  }

  lemma ForwardUndone(t: Trig, n: nat, p: nat)
    requires Lawful(t) && n > 0
    ensures Forward(t, n, p).Times(Root(t, n, p)) == ONE
  {
    var x, y := ForwardAngle(t, n, p), Angle(t, n, p);
    OppositeAngles(t.pi, n as real, p as real);
    assert x + y == 0.0;
    ExpSum(t, x, y);
    assert Exp(t, x + y) == Exp(t, 0.0) == ONE;
  }

  lemma OppositeAngles(pi: real, n: real, p: real)
    requires n > 0.0
    ensures p * (2.0 * pi / n) + p * (-2.0 * pi / n) == 0.0
  {
    var a, b := 2.0 * pi / n, -2.0 * pi / n;
    assert a * n == 2.0 * pi && b * n == -2.0 * pi;
    assert (a + b) * n == 0.0;
    assert a + b == 0.0;
    assert p * (a + b) == p * a + p * b;
  }

  /** Turning forward is turning backward by the rest of some whole turns. */
  lemma ForwardIsRoot(t: Trig, n: nat, j: nat, m: nat)
    requires Lawful(t) && n > 0 && j <= n
    ensures Forward(t, n, j * m) == Root(t, n, (n - j) * m)
  {
    hide Lawful, Root, Forward, Complex.Times;
    ForwardUndone(t, n, j * m);
    assert (n - j) * m + j * m == m * n;
    RootSum(t, n, (n - j) * m, j * m);
    RootWholeTurns(t, n, m);
    SameInverse(Forward(t, n, j * m), Root(t, n, (n - j) * m), Root(t, n, j * m));
  }

  lemma {:induction false} RootOfOne(t: Trig, n: nat, p: nat, k: nat)
    requires Lawful(t) && n > 0 && Root(t, n, p) == ONE
    ensures Root(t, n, k * p) == ONE
  {
    hide Lawful, Root, Complex.Times;
    if k == 0 {
      assert 0 * p == 0;
      RootZero(t, n);
    } else {
      RootOfOne(t, n, p, k - 1);
      assert k * p == (k - 1) * p + p;
      RootSum(t, n, (k - 1) * p, p);
      TimesOne(ONE);
    }
  }

  lemma OddTimes(k: nat, i: nat, n: nat)
    requires n == 2 * k
    ensures k * (2 * i + 1) == i * n + k
  {
    assert i * n == 2 * (i * k);
  }

  lemma EvenTimes(k: nat, p: nat, i: nat, n: nat, h: nat)
    requires k * p == i * n + h
    ensures k * (2 * p) == i * (2 * n) + 2 * h
  {
    assert k * (2 * p) == 2 * (k * p) && i * (2 * n) == 2 * (i * n);
  }

  /** Some multiple of p is an odd number of half turns. */
  lemma {:induction false} OddHalfTurns(n: nat, p: nat) returns (k: nat, i: nat)
    requires IsPowerOfTwo(n) && 0 < p < n
    ensures k * p == i * n + n / 2 && n == 2 * (n / 2)
  {
    assert n == 2 * (n / 2) && IsPowerOfTwo(n / 2);
    hide IsPowerOfTwo;
    if p % 2 == 1 {
      k, i := n / 2, p / 2;
      assert p == 2 * i + 1;
      OddTimes(k, i, n);
    } else {
      assert p == 2 * (p / 2);
      k, i := OddHalfTurns(n / 2, p / 2);
      EvenTimes(k, p / 2, i, n / 2, n / 2 / 2);
    }
  }

  /** Among the powers of the principal root below the n-th, none but the zeroth is one. */
  lemma Primitive(t: Trig, n: nat, p: nat)
    requires Lawful(t) && IsPowerOfTwo(n) && 0 < p < n
    ensures Root(t, n, p) != ONE
  {
    hide Lawful, Root, IsPowerOfTwo;
    var k, i := OddHalfTurns(n, p);
    if Root(t, n, p) == ONE {
      RootOfOne(t, n, p, k);
      RootSum(t, n, i * n, n / 2);
      RootWholeTurns(t, n, i);
      RootTurn(t, n / 2);
      assert false;
    }
  }

  // Sums of powers.

  /** sum over m < k of w^(p m). */
  function Powers(t: Trig, n: nat, p: nat, k: nat): Complex
    requires n > 0
  {
    if k == 0 then ZERO else Powers(t, n, p, k - 1).Plus(Root(t, n, p * (k - 1)))
  }

  lemma {:induction false} PowersOfOne(t: Trig, n: nat, p: nat, k: nat)
    requires Lawful(t) && n > 0 && Root(t, n, p) == ONE
    ensures Powers(t, n, p, k) == Complex(k as real, 0.0)
  {
    if k > 0 {
      hide Lawful, Root;
      PowersOfOne(t, n, p, k - 1);
      RootOfOne(t, n, p, k - 1);
      assert p * (k - 1) == (k - 1) * p;
    }
  }

  /** One more factor w^p moves every term on by one. */
  lemma {:induction false} PowersShifted(t: Trig, n: nat, p: nat, k: nat)
    requires Lawful(t) && n > 0
    ensures Root(t, n, p).Times(Powers(t, n, p, k)).Plus(ONE) == Powers(t, n, p, k).Plus(Root(t, n, p * k))
  {
    hide Lawful, Root;
    if k == 0 {
      RootZero(t, n);
      assert p * 0 == 0;
    } else {
      PowersShifted(t, n, p, k - 1);
      var w, s, z := Root(t, n, p), Powers(t, n, p, k - 1), Root(t, n, p * (k - 1));
      assert p * k == p + p * (k - 1);
      RootSum(t, n, p, p * (k - 1));
      TimesPlus(w, s, z);
      hide Complex.Times;
      assert Powers(t, n, p, k) == s.Plus(z);
    }
  }

  lemma PowersOfOther(t: Trig, n: nat, p: nat)
    requires Lawful(t) && n > 0 && Root(t, n, p) != ONE
    ensures Powers(t, n, p, n) == ZERO
  {
    hide Lawful, Root, Powers, Complex.Times;
    PowersShifted(t, n, p, n);
    RootWholeTurns(t, n, p);
    OnlyZeroStays(Powers(t, n, p, n), Root(t, n, p));
  }

  /** Turned back by frequency j, the k-th sample's powers add up to n if it is the j-th, and to nothing if not. */
  lemma PowersOfSample(t: Trig, n: nat, j: nat, k: nat)
    requires Lawful(t) && IsPowerOfTwo(n) && n > 0 && j < n && k < n
    ensures Powers(t, n, n - j + k, n) == if j == k then Complex(n as real, 0.0) else ZERO
  {
    hide Lawful, Root, Powers, IsPowerOfTwo;
    var p := n - j + k;
    if j == k {
      RootTurn(t, n);
      PowersOfOne(t, n, p, n);
    } else {
      if p < n {
        Primitive(t, n, p);
      } else {
        Primitive(t, n, p - n);
        RootSum(t, n, n, p - n);
        RootTurn(t, n);
        TimesCommutes(ONE, Root(t, n, p - n));
        TimesOne(Root(t, n, p - n));
      }
      PowersOfOther(t, n, p);
    }
  }

  // The inverse transform.

  /** The angle of j * m / n of a turn. */
  function Phase(t: Trig, n: nat, j: nat, m: nat): (x: real)
    requires n > 0
  {
    ((j * m) as real) * (2.0 * t.pi / (n as real))
  }

  lemma ForwardByPhase(t: Trig, n: nat, j: nat, m: nat)
    requires n > 0
    ensures Forward(t, n, j * m) == Complex(t.cos(Phase(t, n, j, m)), t.sin(Phase(t, n, j, m)))
  {
    SameExp(t, ForwardAngle(t, n, j * m), Phase(t, n, j, m));
  }

  /** sum over m < k of e^(2 pi i j m / n) X[m], where X has real parts a and imaginary parts b. */
  function Back(t: Trig, a: seq<real>, b: seq<real>, n: nat, j: nat, k: nat): Complex
    requires n > 0 && k <= |a| && k <= |b|
  {
    if k == 0 then ZERO
    else
      var x := Phase(t, n, j, k - 1);
      var done := Back(t, a, b, n, j, k - 1);
      Complex(done.re + (t.cos(x) * a[k - 1] - t.sin(x) * b[k - 1]),
              done.im + (t.cos(x) * b[k - 1] + t.sin(x) * a[k - 1]))
  }

  /** The same sum over the bins of the first `l` samples only. */
  function BackOf(t: Trig, x: seq<real>, n: nat, j: nat, l: nat, k: nat): Complex
    requires n > 0 && j <= n && l <= |x|
  {
    if k == 0 then ZERO
    else BackOf(t, x, n, j, l, k - 1).Plus(Root(t, n, (n - j) * (k - 1)).Times(PartialDft(t, x, n, k - 1, l)))
  }

  lemma {:induction false} BackOfNothing(t: Trig, x: seq<real>, n: nat, j: nat, k: nat)
    requires n > 0 && j <= n
    ensures BackOf(t, x, n, j, 0, k) == ZERO
  {
    hide Root, Complex.Times, Complex.Plus;
    if k > 0 {
      BackOfNothing(t, x, n, j, k - 1);
      NothingSummed(t, x, n, k - 1);
      TimesNothing(Root(t, n, (n - j) * (k - 1)));
    }
  }

  lemma NothingSummed(t: Trig, x: seq<real>, n: nat, k: nat)
    requires n > 0
    ensures PartialDft(t, x, n, k, 0) == ZERO
  {
  }

  lemma TermOfSample(t: Trig, x: seq<real>, n: nat, j: nat, l: nat, m: nat)
    requires Lawful(t) && n > 0 && j <= n && l < |x|
    ensures Root(t, n, (n - j) * m).Times(PartialDft(t, x, n, m, l + 1))
         == Root(t, n, (n - j) * m).Times(PartialDft(t, x, n, m, l)).Plus(Root(t, n, (n - j + l) * m).Scale(x[l]))
  {
    hide Lawful, Root, Complex.Times, Complex.Plus, Complex.Scale, PartialDft;
    var w, z := Root(t, n, (n - j) * m), Root(t, n, l * m);
    NextTerm(t, x, n, m, l);
    TimesPlus(w, PartialDft(t, x, n, m, l), z.Scale(x[l]));
    TimesScale(w, x[l], z);
    assert (n - j + l) * m == l * m + (n - j) * m;
    RootSum(t, n, l * m, (n - j) * m);
  }

  lemma ScalePlus(x: real, a: Complex, b: Complex)
    ensures a.Plus(b).Scale(x) == a.Scale(x).Plus(b.Scale(x))
  {
    assert x * (a.re + b.re) == x * a.re + x * b.re;
    assert x * (a.im + b.im) == x * a.im + x * b.im;
  }

  lemma Interleave(a: Complex, b: Complex, c: Complex, d: Complex)
    ensures a.Plus(b).Plus(c.Plus(d)) == a.Plus(c).Plus(b.Plus(d))
  {
  }

  lemma BackOfNext(t: Trig, x: seq<real>, n: nat, j: nat, l: nat, m: nat)
    requires n > 0 && j <= n && l <= |x|
    ensures BackOf(t, x, n, j, l, m + 1)
         == BackOf(t, x, n, j, l, m).Plus(Root(t, n, (n - j) * m).Times(PartialDft(t, x, n, m, l)))
  {
    hide Root, Complex.Times, PartialDft, Complex.Plus;
    assert (m + 1) - 1 == m;
  }

  lemma PowersNext(t: Trig, n: nat, p: nat, m: nat)
    requires n > 0
    ensures Powers(t, n, p, m + 1) == Powers(t, n, p, m).Plus(Root(t, n, p * m))
  {
    hide Root, Complex.Plus;
    assert (m + 1) - 1 == m;
  }

  lemma NoBins(t: Trig, x: seq<real>, n: nat, j: nat, l: nat, p: nat, y: real)
    requires n > 0 && j <= n && l < |x|
    ensures BackOf(t, x, n, j, l + 1, 0) == BackOf(t, x, n, j, l, 0).Plus(Powers(t, n, p, 0).Scale(y))
  {
  }

  /** One more sample adds its powers. */
  lemma {:induction false} BackOfSample(t: Trig, x: seq<real>, n: nat, j: nat, l: nat, k: nat)
    requires Lawful(t) && n > 0 && j <= n && l < |x|
    ensures BackOf(t, x, n, j, l + 1, k) == BackOf(t, x, n, j, l, k).Plus(Powers(t, n, n - j + l, k).Scale(x[l]))
  {
    hide *;
    if k == 0 {
      NoBins(t, x, n, j, l, n - j + l, x[l]);
    } else {
      var m, p := k - 1, n - j + l;
      BackOfSample(t, x, n, j, l, m);
      TermOfSample(t, x, n, j, l, m);
      BackOfNext(t, x, n, j, l + 1, m);
      BackOfNext(t, x, n, j, l, m);
      PowersNext(t, n, p, m);
      ScalePlus(x[l], Powers(t, n, p, m), Root(t, n, p * m));
      Interleave(BackOf(t, x, n, j, l, m), Powers(t, n, p, m).Scale(x[l]),
          Root(t, n, (n - j) * m).Times(PartialDft(t, x, n, m, l)), Root(t, n, p * m).Scale(x[l]));
    }
  }

  /** All bins of the first l samples, turned back: n times the j-th sample, if it is among them. */
  lemma {:induction false} BackOfAll(t: Trig, x: seq<real>, n: nat, j: nat, l: nat)
    requires Lawful(t) && IsPowerOfTwo(n) && n > 0 && j < n && l <= n == |x|
    ensures BackOf(t, x, n, j, l, n) == if j < l then Complex((n as real) * x[j], 0.0) else ZERO
  {
    hide Lawful, IsPowerOfTwo, BackOf, Powers;
    if l == 0 {
      BackOfNothing(t, x, n, j, n);
    } else {
      BackOfAll(t, x, n, j, l - 1);
      BackOfSample(t, x, n, j, l - 1, n);
      PowersOfSample(t, n, j, l - 1);
    }
  }

  lemma BinAt(t: Trig, x: seq<real>, a: seq<real>, b: seq<real>, m: nat)
    requires |x| > 0 && m < |x| <= |a| && |x| <= |b| && HoldsSpectrum(t, x, a, b, 0)
    ensures Complex(a[m], b[m]) == PartialDft(t, x, |x|, m, |x|)
  {
    assert Cell(a, b, m) == Dft(t, x, m - 0);
  }

  lemma BackNext(t: Trig, a: seq<real>, b: seq<real>, n: nat, j: nat, k: nat)
    requires n > 0 && 0 < k <= |a| && k <= |b|
    ensures Back(t, a, b, n, j, k)
         == Back(t, a, b, n, j, k - 1).Plus(Forward(t, n, j * (k - 1)).Times(Complex(a[k - 1], b[k - 1])))
  {
    hide Forward, Complex.Times, Complex.Plus;
    ForwardByPhase(t, n, j, k - 1);
    var w := Forward(t, n, j * (k - 1));
    TimesIs(w, a[k - 1], b[k - 1]);
    PlusIs(Back(t, a, b, n, j, k - 1), w.Times(Complex(a[k - 1], b[k - 1])));
  }

  lemma TimesIs(w: Complex, x: real, y: real)
    ensures w.Times(Complex(x, y)) == Complex(w.re * x - w.im * y, w.re * y + w.im * x)
  {
  }

  lemma PlusIs(v: Complex, w: Complex)
    ensures v.Plus(w) == Complex(v.re + w.re, v.im + w.im)
  {
  }

  lemma NoBinsBack(t: Trig, x: seq<real>, a: seq<real>, b: seq<real>, j: nat)
    requires |x| > 0 && j <= |x|
    ensures Back(t, a, b, |x|, j, 0) == BackOf(t, x, |x|, j, |x|, 0)
  {
  }

  lemma {:induction false} BackIsBackOf(t: Trig, x: seq<real>, a: seq<real>, b: seq<real>, j: nat, k: nat)
    requires Lawful(t) && |x| > 0 && k <= |x| <= |a| && |x| <= |b| && HoldsSpectrum(t, x, a, b, 0) && j <= |x|
    ensures Back(t, a, b, |x|, j, k) == BackOf(t, x, |x|, j, |x|, k)
  {
    hide *;
    if k == 0 {
      NoBinsBack(t, x, a, b, j);
    } else {
      BackIsBackOf(t, x, a, b, j, k - 1);
      BinAt(t, x, a, b, k - 1);
      ForwardIsRoot(t, |x|, j, k - 1);
      BackNext(t, a, b, |x|, j, k);
      BackOfNext(t, x, |x|, j, |x|, k - 1);
    }
  }

  /** What the transform leaves in its outputs gives the samples back, in plain cosines and sines. */
  lemma SpectrumInverts(t: Trig, x: seq<real>, a: seq<real>, b: seq<real>, j: nat)
    requires Lawful(t) && IsPowerOfTwo(|x|) && |x| > 0 && |x| <= |a| && |x| <= |b| && HoldsSpectrum(t, x, a, b, 0)
    requires j < |x|
    ensures Back(t, a, b, |x|, j, |x|) == Complex((|x| as real) * x[j], 0.0)
  {
    hide Lawful, IsPowerOfTwo, HoldsSpectrum;
    BackIsBackOf(t, x, a, b, j, |x|);
    BackOfAll(t, x, |x|, j, |x|);
  }

  // Pure tones.

  /** Multiplied k times by itself. */
  function Power(x: real, k: nat): real {
    if k == 0 then 1.0 else x * Power(x, k - 1)
  }

  lemma {:induction false} PowerSide(x: real, k: nat)
    requires x >= 0.0 && k > 0
    ensures x < 1.0 ==> 0.0 <= Power(x, k) < 1.0
    ensures x > 1.0 ==> Power(x, k) > 1.0
  {
    if k > 1 {
      PowerSide(x, k - 1);
      PowerSideStep(x, Power(x, k - 1));
    } else {
      assert Power(x, 1) == x * Power(x, 0) == x;
    }
  }

  lemma PowerSideStep(x: real, y: real)
    requires x >= 0.0
    ensures x < 1.0 && 0.0 <= y < 1.0 ==> 0.0 <= x * y < 1.0
    ensures x > 1.0 && y > 1.0 ==> x * y > 1.0
  {
    if x < 1.0 && 0.0 <= y < 1.0 {
      assert x * y >= 0.0 && (1.0 - x) * y >= 0.0;
    }
    if x > 1.0 && y > 1.0 {
      assert (x - 1.0) * y > 0.0;
    }
  }

  function Square(z: Complex): real {
    z.re * z.re + z.im * z.im
  }

  lemma SquareTimes(a: Complex, b: Complex)
    ensures Square(a.Times(b)) == Square(a) * Square(b)
  {
    var p, q, r, s := a.re * b.re, a.im * b.im, a.re * b.im, a.im * b.re;
    assert p * q == r * s;
    assert (p - q) * (p - q) + (r + s) * (r + s) == p * p + q * q + r * r + s * s;
    assert p * p == (a.re * a.re) * (b.re * b.re) && q * q == (a.im * a.im) * (b.im * b.im);
    assert r * r == (a.re * a.re) * (b.im * b.im) && s * s == (a.im * a.im) * (b.re * b.re);
  }

  lemma {:induction false} SquareOfPower(t: Trig, n: nat, p: nat, k: nat)
    requires Lawful(t) && n > 0
    ensures Square(Root(t, n, k * p)) == Power(Square(Root(t, n, p)), k)
  {
    hide Lawful, Root, Complex.Times;
    if k == 0 {
      assert 0 * p == 0;
      RootZero(t, n);
    } else {
      SquareOfPower(t, n, p, k - 1);
      assert k * p == p + (k - 1) * p;
      RootSum(t, n, p, (k - 1) * p);
      SquareTimes(Root(t, n, p), Root(t, n, (k - 1) * p));
      hide Square;
    }
  }

  /** The roots of unity lie on the unit circle. */
  lemma RootOnCircle(t: Trig, n: nat, p: nat)
    requires Lawful(t) && n > 0
    ensures Square(Root(t, n, p)) == 1.0
  {
    hide Lawful, Root;
    SquareOfPower(t, n, p, n);
    assert n * p == p * n;
    RootWholeTurns(t, n, p);
    PowerSide(Square(Root(t, n, p)), n);
  }

  /** So turning forward is the mirror image of turning backward. */
  lemma ForwardMirrors(t: Trig, n: nat, p: nat)
    requires Lawful(t) && n > 0
    ensures Forward(t, n, p) == Complex(Root(t, n, p).re, -Root(t, n, p).im)
  {
    hide Lawful, Root, Forward;
    RootOnCircle(t, n, p);
    ForwardUndone(t, n, p);
    Mirrored(Root(t, n, p), Forward(t, n, p));
  }

  lemma Mirrored(z: Complex, u: Complex)
    requires Square(z) == 1.0 && u.Times(z) == ONE
    ensures u == Complex(z.re, -z.im)
  {
    var c, s := z.re, z.im;
    assert u.re * c - u.im * s == 1.0 && u.re * s + u.im * c == 0.0;
    assert u.re * (c * c + s * s) == c * (u.re * c - u.im * s) + s * (u.re * s + u.im * c) == c;
    assert u.im * (c * c + s * s) == c * (u.re * s + u.im * c) - s * (u.re * c - u.im * s) == -s;
  }

  /** Sample j of a tone is half a turn forward and half a turn backward. */
  lemma ToneSample(t: Trig, n: nat, q: nat, m: nat, j: nat)
    requires Lawful(t) && n > 0 && q <= n
    ensures var w, u, z := Root(t, n, j * m), Root(t, n, (n - q + m) * j), Root(t, n, (q + m) * j);
            && w.Scale(2.0 * Forward(t, n, q * j).re) == u.Plus(z)
            && w.Scale(2.0 * Forward(t, n, q * j).im) == Difference(u, z)
  {
    hide Lawful, Root, Forward;
    var w, f, r := Root(t, n, j * m), Forward(t, n, q * j), Root(t, n, q * j);
    ForwardMirrors(t, n, q * j);
    ForwardIsRoot(t, n, q, j);
    assert (n - q + m) * j == j * m + (n - q) * j && (q + m) * j == j * m + q * j;
    RootSum(t, n, j * m, (n - q) * j);
    RootSum(t, n, j * m, q * j);
    Halves(w, r);
  }

  lemma Halves(w: Complex, r: Complex)
    ensures var f := Complex(r.re, -r.im); var u, z := w.Times(f), w.Times(r);
            w.Scale(2.0 * f.re) == u.Plus(z) && w.Scale(2.0 * f.im) == Difference(u, z)
  {
  }

  function Difference(u: Complex, z: Complex): Complex {
    Complex(u.im - z.im, z.re - u.re)
  }

  lemma InterleaveDifference(a: Complex, b: Complex, c: Complex, d: Complex)
    ensures Difference(a.Plus(b), c.Plus(d)) == Difference(a, c).Plus(Difference(b, d))
  {
  }

  lemma NoPowers(t: Trig, n: nat, p: nat)
    requires n > 0
    ensures Powers(t, n, p, 0) == ZERO
  {
  }

  lemma ScaledNothing(x: real)
    ensures ZERO.Scale(x) == ZERO
  {
  }

  lemma SumOfNothing()
    ensures ZERO.Plus(ZERO) == Difference(ZERO, ZERO) == ZERO
  {
  }

  lemma Halved(z: Complex, u: Complex)
    requires z.Scale(2.0) == u
    ensures z == Complex(u.re / 2.0, u.im / 2.0)
  {
  }

  lemma {:induction false} CosineSum(t: Trig, x: seq<real>, n: nat, q: nat, m: nat, k: nat)
    requires Lawful(t) && n > 0 && q <= n && k <= |x|
    requires forall j :: 0 <= j < |x| ==> x[j] == Forward(t, n, q * j).re
    ensures PartialDft(t, x, n, m, k).Scale(2.0) == Powers(t, n, n - q + m, k).Plus(Powers(t, n, q + m, k))
  {
    hide *;
    if k == 0 {
      NoTerms(t, x, n, m);
      NoPowers(t, n, n - q + m);
      NoPowers(t, n, q + m);
      ScaledNothing(2.0);
      SumOfNothing();
    } else {
      CosineSum(t, x, n, q, m, k - 1);
      ToneSample(t, n, q, m, k - 1);
      NextTerm(t, x, n, m, k - 1);
      PowersNext(t, n, n - q + m, k - 1);
      PowersNext(t, n, q + m, k - 1);
      DoubleScale(Root(t, n, (k - 1) * m), x[k - 1]);
      ScalePlus(2.0, PartialDft(t, x, n, m, k - 1), Root(t, n, (k - 1) * m).Scale(x[k - 1]));
      Interleave(Powers(t, n, n - q + m, k - 1), Root(t, n, (n - q + m) * (k - 1)),
          Powers(t, n, q + m, k - 1), Root(t, n, (q + m) * (k - 1)));
    }
  }

  lemma {:induction false} SineSum(t: Trig, x: seq<real>, n: nat, q: nat, m: nat, k: nat)
    requires Lawful(t) && n > 0 && q <= n && k <= |x|
    requires forall j :: 0 <= j < |x| ==> x[j] == Forward(t, n, q * j).im
    ensures PartialDft(t, x, n, m, k).Scale(2.0) == Difference(Powers(t, n, n - q + m, k), Powers(t, n, q + m, k))
  {
    hide *;
    if k == 0 {
      NoTerms(t, x, n, m);
      NoPowers(t, n, n - q + m);
      NoPowers(t, n, q + m);
      ScaledNothing(2.0);
      SumOfNothing();
    } else {
      SineSum(t, x, n, q, m, k - 1);
      ToneSample(t, n, q, m, k - 1);
      NextTerm(t, x, n, m, k - 1);
      PowersNext(t, n, n - q + m, k - 1);
      PowersNext(t, n, q + m, k - 1);
      DoubleScale(Root(t, n, (k - 1) * m), x[k - 1]);
      ScalePlus(2.0, PartialDft(t, x, n, m, k - 1), Root(t, n, (k - 1) * m).Scale(x[k - 1]));
      InterleaveDifference(Powers(t, n, n - q + m, k - 1), Root(t, n, (n - q + m) * (k - 1)),
          Powers(t, n, q + m, k - 1), Root(t, n, (q + m) * (k - 1)));
    }
  }

  lemma DoubleScale(w: Complex, x: real)
    ensures w.Scale(x).Scale(2.0) == w.Scale(2.0 * x)
  {
    assert 2.0 * (x * w.re) == (2.0 * x) * w.re;
    assert 2.0 * (x * w.im) == (2.0 * x) * w.im;
  }

  lemma WholeTone(n: real)
    ensures var whole := Complex(n, 0.0);
            && whole.Plus(ZERO) == whole == ZERO.Plus(whole) && ZERO.Plus(ZERO) == ZERO
            && Difference(whole, ZERO) == Complex(0.0, -n) && Difference(ZERO, whole) == Complex(0.0, n)
            && Difference(ZERO, ZERO) == ZERO
  {
  }

  lemma TonePowers(t: Trig, n: nat, q: nat, m: nat)
    requires Lawful(t) && IsPowerOfTwo(n) && 0 < q && 2 * q < n && m < n
    ensures var u, z, whole := Powers(t, n, n - q + m, n), Powers(t, n, q + m, n), Complex(n as real, 0.0);
            && u.Plus(z) == (if m == q || m == n - q then whole else ZERO)
            && Difference(u, z) == (if m == q then Complex(0.0, -(n as real))
                                    else if m == n - q then Complex(0.0, n as real) else ZERO)
  {
    hide *;
    PowersOfSample(t, n, q, m);
    PowersOfSample(t, n, n - q, m);
    assert n - (n - q) + m == q + m;
    WholeTone(n as real);
  }

  lemma DftIs(t: Trig, x: seq<real>, m: nat)
    requires |x| > 0
    ensures Dft(t, x, m) == PartialDft(t, x, |x|, m, |x|)
  {
  }

  lemma CosineBin(t: Trig, x: seq<real>, q: nat, m: nat)
    requires Lawful(t) && IsPowerOfTwo(|x|) && 0 < q && 2 * q < |x| && m < |x|
    requires forall j :: 0 <= j < |x| ==> x[j] == Forward(t, |x|, q * j).re
    ensures var n := |x| as real; Dft(t, x, m).Scale(2.0) == if m == q || m == |x| - q then Complex(n, 0.0) else ZERO
  {
    hide *;
    CosineSum(t, x, |x|, q, m, |x|);
    TonePowers(t, |x|, q, m);
    DftIs(t, x, m);
  }

  /** A cosine of q periods has half its samples' number in bin q and in the mirror bin, and nothing elsewhere. */
  lemma CosineTone(t: Trig, x: seq<real>, angles: seq<real>, q: nat, m: nat)
    requires Lawful(t) && IsPowerOfTwo(|x|) && 0 < q && 2 * q < |x| && m < |x| == |angles|
    requires forall j :: 0 <= j < |x| ==> angles[j] * (|x| as real) == 2.0 * t.pi * ((q * j) as real)
    requires forall j :: 0 <= j < |x| ==> x[j] == t.cos(angles[j])
    ensures var n := |x| as real;
            Dft(t, x, m) == if m == q || m == |x| - q then Complex(n / 2.0, 0.0) else Complex(0.0, 0.0)
  {
    hide Lawful, Dft, IsPowerOfTwo, Forward, Complex.Scale;
    forall j | 0 <= j < |x|
      ensures x[j] == Forward(t, |x|, q * j).re
    {
      ForwardAt(t, |x|, q * j, angles[j]);
    }
    CosineBin(t, x, q, m);
    Halved(Dft(t, x, m), Dft(t, x, m).Scale(2.0));
  }

  lemma SineBin(t: Trig, x: seq<real>, q: nat, m: nat)
    requires Lawful(t) && IsPowerOfTwo(|x|) && 0 < q && 2 * q < |x| && m < |x|
    requires forall j :: 0 <= j < |x| ==> x[j] == Forward(t, |x|, q * j).im
    ensures var n := |x| as real; Dft(t, x, m).Scale(2.0) == if m == q then Complex(0.0, -n)
                                                            else if m == |x| - q then Complex(0.0, n) else ZERO
  {
    hide *;
    SineSum(t, x, |x|, q, m, |x|);
    TonePowers(t, |x|, q, m);
    DftIs(t, x, m);
  }

  /** A sine likewise, a quarter of a turn behind, and with the other sign in the mirror bin. */
  lemma SineTone(t: Trig, x: seq<real>, angles: seq<real>, q: nat, m: nat)
    requires Lawful(t) && IsPowerOfTwo(|x|) && 0 < q && 2 * q < |x| && m < |x| == |angles|
    requires forall j :: 0 <= j < |x| ==> angles[j] * (|x| as real) == 2.0 * t.pi * ((q * j) as real)
    requires forall j :: 0 <= j < |x| ==> x[j] == t.sin(angles[j])
    ensures var n := |x| as real;
            Dft(t, x, m) == if m == q then Complex(0.0, -n / 2.0)
                            else if m == |x| - q then Complex(0.0, n / 2.0) else Complex(0.0, 0.0)
  {
    hide Lawful, Dft, IsPowerOfTwo, Forward, Complex.Scale;
    forall j | 0 <= j < |x|
      ensures x[j] == Forward(t, |x|, q * j).im
    {
      ForwardAt(t, |x|, q * j, angles[j]);
    }
    SineBin(t, x, q, m);
    Halved(Dft(t, x, m), Dft(t, x, m).Scale(2.0));
  }
}
