/** The discrete Fourier transform as a plain sum, and the two laws a radix-2 step rests on. */
module FourierSum {
  import opened ExactComplex

  /** sum over j < k of x[j] * w^(j m), where w is the principal n-th root of unity. */
  function PartialDft(t: Trig, x: seq<real>, n: nat, m: nat, k: nat): Complex
    requires n > 0 && k <= |x|
  {
    if k == 0 then ZERO
    else PartialDft(t, x, n, m, k - 1).Plus(Root(t, n, (k - 1) * m).Scale(x[k - 1]))
  }

  function Dft(t: Trig, x: seq<real>, m: nat): Complex
    requires |x| > 0
  {
    PartialDft(t, x, |x|, m, |x|)
  }

  function Evens(x: seq<real>): (e: seq<real>)
    ensures |e| == (|x| + 1) / 2
  {
    seq((|x| + 1) / 2, i requires 0 <= i < (|x| + 1) / 2 => x[2 * i])
  }

  function Odds(x: seq<real>): (o: seq<real>)
    ensures |o| == |x| / 2
  {
    seq(|x| / 2, i requires 0 <= i < |x| / 2 => x[2 * i + 1])
  }

  lemma PairOfTerms(t: Trig, n: nat, m: nat, k: nat, e: real, o: real)
    requires Lawful(t) && n > 0
    ensures Root(t, 2 * n, (2 * k) * m).Scale(e) == Root(t, n, k * m).Scale(e)
    ensures Root(t, 2 * n, (2 * k + 1) * m).Scale(o) == Root(t, 2 * n, m).Times(Root(t, n, k * m).Scale(o))
  {
    hide Complex.Times, Complex.Scale, Root, Lawful;
    RootFraction(t, n, k * m, 2);
    assert (2 * k) * m == 2 * (k * m);
    assert (2 * k + 1) * m == 2 * (k * m) + m;
    RootSum(t, 2 * n, 2 * (k * m), m);
    TimesScale(Root(t, 2 * n, m), o, Root(t, n, k * m));
  }

  lemma Regroup(w: Complex, evens: Complex, odds: Complex, e: Complex, o: Complex)
    ensures evens.Plus(w.Times(odds)).Plus(e).Plus(w.Times(o)) == evens.Plus(e).Plus(w.Times(odds.Plus(o)))
  {
    TimesPlus(w, odds, o);
    hide Complex.Times;
  }

  lemma NextTerm(t: Trig, x: seq<real>, n: nat, m: nat, k: nat)
    requires n > 0 && k < |x|
    ensures PartialDft(t, x, n, m, k + 1) == PartialDft(t, x, n, m, k).Plus(Root(t, n, k * m).Scale(x[k]))
  {
    hide Complex.Plus, Complex.Scale, Root;
    assert (k + 1) - 1 == k;
  }

  lemma SplitStep(t: Trig, x: seq<real>, n: nat, m: nat, k: nat)
    requires Lawful(t) && n > 0 && |x| == 2 * n && k < n
    requires PartialDft(t, x, 2 * n, m, 2 * k)
          == PartialDft(t, Evens(x), n, m, k).Plus(Root(t, 2 * n, m).Times(PartialDft(t, Odds(x), n, m, k)))
    ensures PartialDft(t, x, 2 * n, m, 2 * (k + 1))
         == PartialDft(t, Evens(x), n, m, k + 1).Plus(Root(t, 2 * n, m).Times(PartialDft(t, Odds(x), n, m, k + 1)))
  {
    hide Complex.Plus, Complex.Times, Complex.Scale, Root, Lawful, PartialDft;
    var w, e, o := Root(t, 2 * n, m), x[2 * k], x[2 * k + 1];
    PairOfTerms(t, n, m, k, e, o);
    NextTerm(t, x, 2 * n, m, 2 * k);
    NextTerm(t, x, 2 * n, m, 2 * k + 1);
    var root := Root(t, n, k * m);
    var evens, odds := PartialDft(t, Evens(x), n, m, k), PartialDft(t, Odds(x), n, m, k);
    NextTerm(t, Evens(x), n, m, k);
    NextTerm(t, Odds(x), n, m, k);
    Regroup(w, evens, odds, root.Scale(e), root.Scale(o));
  }

  lemma NoTerms(t: Trig, x: seq<real>, n: nat, m: nat)
    requires n > 0
    ensures PartialDft(t, x, n, m, 0) == ZERO
  {
  }

  lemma TimesNothing(w: Complex)
    ensures ZERO.Plus(w.Times(ZERO)) == ZERO
  {
  }

  /** Decimation in time: even-indexed terms first, odd-indexed terms under one twiddle factor. */
  lemma {:induction false} SplitSum(t: Trig, x: seq<real>, n: nat, m: nat, k: nat)
    requires Lawful(t) && n > 0 && |x| == 2 * n && k <= n
    ensures PartialDft(t, x, 2 * n, m, 2 * k)
         == PartialDft(t, Evens(x), n, m, k).Plus(Root(t, 2 * n, m).Times(PartialDft(t, Odds(x), n, m, k)))
  {
    hide *;
    if k == 0 {
      NoTerms(t, x, 2 * n, m);
      NoTerms(t, Evens(x), n, m);
      NoTerms(t, Odds(x), n, m);
      TimesNothing(Root(t, 2 * n, m));
    } else {
      SplitSum(t, x, n, m, k - 1);
      SplitStep(t, x, n, m, k - 1);
    }
  }

  /** An n-point spectrum repeats every n bins. */
  lemma {:induction false} PeriodicSum(t: Trig, x: seq<real>, n: nat, m: nat, k: nat)
    requires Lawful(t) && n > 0 && k <= |x|
    ensures PartialDft(t, x, n, m + n, k) == PartialDft(t, x, n, m, k)
  {
    if k > 0 {
      hide Lawful, Root, PartialDft, Complex.Plus, Complex.Scale;
      PeriodicSum(t, x, n, m, k - 1);
      NextTerm(t, x, n, m + n, k - 1);
      NextTerm(t, x, n, m, k - 1);
      RootPeriodic(t, n, m, k - 1);
    } else {
      assert PartialDft(t, x, n, m + n, 0) == ZERO == PartialDft(t, x, n, m, 0);
    }
  }

  /** The butterfly: both halves of a spectrum from the half-size spectra of evens and odds. */
  lemma Butterfly(t: Trig, x: seq<real>, n: nat, m: nat)
    requires Lawful(t) && n > 0 && |x| == 2 * n && m < n
    ensures Dft(t, x, m) == Dft(t, Evens(x), m).Plus(Root(t, 2 * n, m).Times(Dft(t, Odds(x), m)))
    ensures Dft(t, x, n + m) == Dft(t, Evens(x), m).Minus(Root(t, 2 * n, m).Times(Dft(t, Odds(x), m)))
  {
    hide Root, PartialDft, Lawful, Evens, Odds;
    SplitSum(t, x, n, m, n);
    SplitSum(t, x, n, m + n, n);
    PeriodicSum(t, Evens(x), n, m, n);
    PeriodicSum(t, Odds(x), n, m, n);
    RootSum(t, 2 * n, m, n);
    RootTurn(t, n);
  }
}
