/** Exact complex numbers, and the laws of cosine and sine that the transform relies on.
    Rounding is not modelled: a `float` of the source is a `real` here. */
module ExactComplex {

  datatype Complex = Complex(re: real, im: real) {
    function Plus(z: Complex): Complex {
      Complex(re + z.re, im + z.im)
    }

    function Minus(z: Complex): Complex {
      Complex(re - z.re, im - z.im)
    }

    function Times(z: Complex): Complex {
      Complex(re * z.re - im * z.im, re * z.im + im * z.re)
    }

    function Scale(x: real): Complex {
      Complex(x * re, x * im)
    }
  }

  const ZERO := Complex(0.0, 0.0)
  const ONE := Complex(1.0, 0.0)

  lemma TimesPlus(w: Complex, a: Complex, b: Complex)
    ensures w.Times(a.Plus(b)) == w.Times(a).Plus(w.Times(b))
  {
    assert w.re * (a.re + b.re) == w.re * a.re + w.re * b.re;
    assert w.im * (a.im + b.im) == w.im * a.im + w.im * b.im;
    assert w.re * (a.im + b.im) == w.re * a.im + w.re * b.im;
    assert w.im * (a.re + b.re) == w.im * a.re + w.im * b.re;
  }

  lemma TimesScale(w: Complex, x: real, z: Complex)
    ensures w.Times(z.Scale(x)) == z.Times(w).Scale(x)
  {
    assert w.re * (x * z.re) - w.im * (x * z.im) == x * (z.re * w.re - z.im * w.im);
    assert w.re * (x * z.im) + w.im * (x * z.re) == x * (z.re * w.im + z.im * w.re);
  }

  /** The trigonometry the source calls into: `math::cos`, `math::sin` and `M_PI`. */
  datatype Trig = Trig(cos: real -> real, sin: real -> real, pi: real)

  ghost predicate SumLaw(t: Trig, x: real, y: real) {
    && t.cos(x + y) == t.cos(x) * t.cos(y) - t.sin(x) * t.sin(y)
    && t.sin(x + y) == t.cos(x) * t.sin(y) + t.sin(x) * t.cos(y)
  }

  /** The angle sum formulas, and the values at 0 and at minus a quarter of a turn. */
  ghost predicate Lawful(t: Trig) {
    && t.cos(0.0) == 1.0 && t.sin(0.0) == 0.0
    && t.cos(-t.pi / 2.0) == 0.0 && t.sin(-t.pi / 2.0) == -1.0
    && (forall x: real, y: real :: SumLaw(t, x, y))
  }

  function Exp(t: Trig, x: real): Complex {
    Complex(t.cos(x), t.sin(x))
  }

  lemma ExpSum(t: Trig, x: real, y: real)
    requires Lawful(t)
    ensures Exp(t, x + y) == Exp(t, x).Times(Exp(t, y))
  {
    assert SumLaw(t, x, y);
  }

  /** The angle step of a transform over n points. */
  function TwiddleStep(t: Trig, n: nat): real
    requires n > 0
  {
    -2.0 * t.pi / (n as real)
  }

  function Angle(t: Trig, n: nat, p: nat): real
    requires n > 0
  {
    (p as real) * TwiddleStep(t, n)
  }

  /** The p-th power of the principal n-th root of unity: e^(-2 pi i p / n). */
  function Root(t: Trig, n: nat, p: nat): Complex
    requires n > 0
  {
    Exp(t, Angle(t, n, p))
  }

  lemma AngleSum(t: Trig, n: nat, p: nat, q: nat)
    requires n > 0
    ensures Angle(t, n, p + q) == Angle(t, n, p) + Angle(t, n, q)
  {
    assert (p + q) as real == (p as real) + (q as real);
  }

  lemma RootSum(t: Trig, n: nat, p: nat, q: nat)
    requires Lawful(t) && n > 0
    ensures Root(t, n, p + q) == Root(t, n, p).Times(Root(t, n, q))
  {
    AngleSum(t, n, p, q);
    ExpSum(t, Angle(t, n, p), Angle(t, n, q));
  }

  /** Only the fraction p / n of a turn matters. */
  lemma AngleFraction(pi: real, n: real, p: real, s: real)
    requires n > 0.0 && s > 0.0
    ensures (s * p) * (-2.0 * pi / (s * n)) == p * (-2.0 * pi / n)
  {
    var a := -2.0 * pi / n;
    var b := -2.0 * pi / (s * n);
    assert a * n == -2.0 * pi;
    assert b * (s * n) == -2.0 * pi;
    assert (s * b) * n == b * (s * n);
    assert (s * b - a) * n == 0.0;
    assert s * b == a;
    assert (s * p) * b == p * (s * b);
  }

  lemma RootFraction(t: Trig, n: nat, p: nat, s: nat)
    requires n > 0 && s > 0 && s * n > 0
    ensures Root(t, s * n, s * p) == Root(t, n, p)
  {
    AngleFraction(t.pi, n as real, p as real, s as real);
    assert (s * n) as real == (s as real) * (n as real);
    assert (s * p) as real == (s as real) * (p as real);
    assert Angle(t, s * n, s * p) == Angle(t, n, p);
  }

  lemma RootZero(t: Trig, n: nat)
    requires Lawful(t) && n > 0
    ensures Root(t, n, 0) == ONE
  {
    assert Angle(t, n, 0) == 0.0;
  }

  lemma RootQuarter(t: Trig)
    requires Lawful(t)
    ensures Root(t, 4, 1) == Complex(0.0, -1.0)
    ensures Root(t, 2, 1) == Complex(-1.0, 0.0)
    ensures Root(t, 1, 1) == ONE
  {
    var quarter := -t.pi / 2.0;
    assert Angle(t, 4, 1) == quarter;
    assert Exp(t, quarter) == Complex(0.0, -1.0);
    RootFraction(t, 2, 1, 2);
    RootSum(t, 4, 1, 1);
    RootFraction(t, 1, 1, 2);
    RootSum(t, 2, 1, 1);
  }

  /** w^cnt = 1 and w^(cnt/2) = -1. */
  lemma RootTurn(t: Trig, n: nat)
    requires Lawful(t) && n > 0
    ensures Root(t, n, n) == ONE
    ensures Root(t, 2 * n, n) == Complex(-1.0, 0.0)
  {
    RootQuarter(t);
    RootFraction(t, 1, 1, n);
    RootFraction(t, 2, 1, n);
  }

  lemma {:induction false} RootWholeTurns(t: Trig, n: nat, j: nat)
    requires Lawful(t) && n > 0
    ensures Root(t, n, j * n) == ONE
  {
    if j == 0 {
      RootZero(t, n);
    } else {
      RootWholeTurns(t, n, j - 1);
      RootTurn(t, n);
      assert j * n == (j - 1) * n + n;
      RootSum(t, n, (j - 1) * n, n);
    }
  }

  lemma TimesOne(w: Complex)
    ensures w.Times(ONE) == w
  {
  }

  /** Adding n to the bin does not change the factor of any sample. */
  lemma RootPeriodic(t: Trig, n: nat, m: nat, j: nat)
    requires Lawful(t) && n > 0
    ensures Root(t, n, j * (m + n)) == Root(t, n, j * m)
  {
    hide Lawful, Root, Complex.Times;
    assert j * (m + n) == j * m + j * n;
    RootSum(t, n, j * m, j * n);
    RootWholeTurns(t, n, j);
    TimesOne(Root(t, n, j * m));
  }
}
