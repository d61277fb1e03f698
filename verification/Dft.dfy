/** The discrete Fourier transform as polynomial evaluation at powers of a root of unity,
    the radix-2 split of that polynomial, and the orthogonality that inverts the transform. */
module Dft {
  import opened Bits
  import opened ComplexNumbers

  // ----- roots of unity -----

  /** `w(s)` plays the root of unity of order 2^s that stage `length = 2^s` uses. */
  ghost predicate RootTower(w: nat -> Complex) {
    && w(0) == One
    && w(1) == MinusOne
    && forall s: nat :: SquaresDown(w, s)
  }

  ghost predicate SquaresDown(w: nat -> Complex, s: nat) {
    Mul(w(s + 1), w(s + 1)) == w(s)
  }

  /** Cosine and sine of the stage angles 2*pi/2^s, and the double-angle laws they obey. */
  datatype Trig = Trig(cosine: nat -> real, sine: nat -> real)

  ghost predicate HalfAngles(t: Trig) {
    && t.cosine(0) == 1.0 && t.sine(0) == 0.0
    && t.cosine(1) == -1.0 && t.sine(1) == 0.0
    && forall s: nat :: DoubleAngleAt(t, s)
  }

  ghost predicate DoubleAngleAt(t: Trig, s: nat) {
    var c, d := t.cosine(s + 1), t.sine(s + 1);
    && t.cosine(s) == c * c - d * d
    && t.sine(s) == 2.0 * (c * d)
    && t.cosine(s) * t.cosine(s) + t.sine(s) * t.sine(s) == 1.0
  }

  function Root(t: Trig, inverse: bool): nat -> Complex {
    (s: nat) => Complex(t.cosine(s), if inverse then t.sine(s) else -t.sine(s))
  }

  lemma RootsFormTowers(t: Trig, inverse: bool)
    requires HalfAngles(t)
    ensures RootTower(Root(t, inverse))
    ensures forall s: nat :: Mul(Root(t, inverse)(s), Root(t, !inverse)(s)) == One
  {
    hide Mul, SquaresDown, DoubleAngleAt;
    forall s: nat
      ensures SquaresDown(Root(t, inverse), s)
      ensures Mul(Root(t, inverse)(s), Root(t, !inverse)(s)) == One
    {
      RootStep(t, inverse, s);
    }
  }

  lemma RootStep(t: Trig, inverse: bool, s: nat)
    requires DoubleAngleAt(t, s)
    ensures SquaresDown(Root(t, inverse), s)
    ensures Mul(Root(t, inverse)(s), Root(t, !inverse)(s)) == One
  {
    var c, d := t.cosine(s + 1), t.sine(s + 1);
    assert Mul(Complex(c, d), Complex(c, d)) == Complex(c * c - d * d, 2.0 * (c * d));
    assert Mul(Complex(c, -d), Complex(c, -d)) == Complex(c * c - d * d, -(2.0 * (c * d)));
  }

  lemma {:induction false} HalfTurn(w: nat -> Complex, s: nat)
    requires RootTower(w)
    ensures Pow(w(s + 1), Exp2(s)) == MinusOne
  {
    hide Mul;
    if s == 0 {
      assert Exp2(0) == 1;
      assert Pow(w(1), 1) == Mul(w(1), Pow(w(1), 0));
      MulOne(w(1));
    } else {
      HalfTurn(w, s - 1);
      PowEven(w(s + 1), Exp2(s - 1));
      assert SquaresDown(w, s);
    }
  }

  lemma FullTurn(w: nat -> Complex, s: nat)
    requires RootTower(w)
    ensures Pow(w(s), Exp2(s)) == One
  {
    hide Mul;
    MulMinusOne(MinusOne);
    if s == 0 {
      assert Exp2(0) == 1;
      assert Pow(w(0), 1) == Mul(w(0), Pow(w(0), 0));
      MulOne(w(0));
    } else {
      HalfTurn(w, s - 1);
      PowAdd(w(s), Exp2(s - 1), Exp2(s - 1));
    }
  }

  lemma PowPeriodic(w: nat -> Complex, s: nat, k: nat)
    requires RootTower(w)
    ensures Pow(w(s), k + Exp2(s)) == Pow(w(s), k)
  {
    PowAdd(w(s), k, Exp2(s));
    FullTurn(w, s);
    MulOne(Pow(w(s), k));
    hide Mul;
  }

  // ----- the transform -----

  /** x[0] + z*x[1] + z^2*x[2] + ... */
  function Eval(x: seq<Complex>, z: Complex): Complex {
    if x == [] then Zero else Add(x[0], Mul(z, Eval(x[1..], z)))
  }

  /** The first `n` terms of the defining sum of x[t] * w^(t*k). */
  function DftSum(x: seq<Complex>, w: Complex, k: nat, n: nat): Complex
    requires n <= |x|
  {
    if n == 0 then Zero else Add(DftSum(x, w, k, n - 1), Mul(x[n - 1], Pow(w, (n - 1) * k)))
  }

  lemma {:induction false} EvalSnoc(x: seq<Complex>, a: Complex, z: Complex)
    ensures Eval(x + [a], z) == Add(Eval(x, z), Mul(a, Pow(z, |x|)))
  {
    if x == [] {
      assert [a][1..] == [];
    } else {
      var y := x[1..];
      EvalSnoc(y, a, z);
      assert (x + [a])[1..] == y + [a];
      var p := Pow(z, |y|);
      calc {
        Eval(x + [a], z);
        Add(x[0], Mul(z, Add(Eval(y, z), Mul(a, p))));
        { MulAdd(z, Eval(y, z), Mul(a, p)); MulSwap(z, a, p); }
        Add(x[0], Add(Mul(z, Eval(y, z)), Mul(a, Mul(z, p))));
      }
    }
  }

  /** Evaluation at w^k is the k-th Fourier sum. */
  lemma {:induction false} EvalIsDftSum(x: seq<Complex>, w: Complex, k: nat, n: nat)
    requires n <= |x|
    ensures Eval(x[..n], Pow(w, k)) == DftSum(x, w, k, n)
  {
    hide Mul, Add, Pow;
    if n == 0 {
    } else {
      EvalIsDftSum(x, w, k, n - 1);
      assert x[..n] == x[..n - 1] + [x[n - 1]];
      EvalSnoc(x[..n - 1], x[n - 1], Pow(w, k));
      PowOfPow(w, k, n - 1);
      assert k * (n - 1) == (n - 1) * k;
    }
  }

  function Evens(x: seq<Complex>): (r: seq<Complex>)
    ensures |r| == |x| / 2
  {
    seq(|x| / 2, i requires 0 <= i < |x| / 2 => x[2 * i])
  }

  function Odds(x: seq<Complex>): (r: seq<Complex>)
    ensures |r| == |x| / 2
  {
    seq(|x| / 2, i requires 0 <= i < |x| / 2 => x[2 * i + 1])
  }

  /** Decimation in time: a transform of even length from the transforms of its even and odd halves. */
  lemma {:induction false} EvalSplit(x: seq<Complex>, z: Complex)
    requires |x| % 2 == 0
    ensures Eval(x, z) == Add(Eval(Evens(x), Mul(z, z)), Mul(z, Eval(Odds(x), Mul(z, z))))
  {
    hide Mul, Add;
    if x == [] {
      MulZero(z);
      AddZero(Zero);
    } else {
      var y := x[2..];
      EvalSplit(y, z);
      assert Evens(x)[1..] == Evens(y) && Odds(x)[1..] == Odds(y);
      assert Evens(x)[0] == x[0] && Odds(x)[0] == x[1];
      assert x[1..][1..] == y && x[1..][0] == x[1];
      SplitAlgebra(z, x[0], x[1], Eval(Evens(y), Mul(z, z)), Eval(Odds(y), Mul(z, z)));
    }
  }

  lemma SplitAlgebra(z: Complex, a: Complex, b: Complex, e: Complex, o: Complex)
    ensures Add(a, Mul(z, Add(b, Mul(z, Add(e, Mul(z, o)))))) ==
            Add(Add(a, Mul(Mul(z, z), e)), Mul(z, Add(b, Mul(Mul(z, z), o))))
  {
    hide Mul;
    var i := Add(e, Mul(z, o));
    var s := Mul(z, z);
    MulAdd(z, b, Mul(z, i));
    MulAssoc(z, z, i);
    MulAdd(s, e, Mul(z, o));
    MulSwap(s, z, o);
    MulAdd(z, b, Mul(s, o));
  }

  // ----- linearity -----

  function AddSeq(x: seq<Complex>, y: seq<Complex>): (r: seq<Complex>)
    requires |x| == |y|
    ensures |r| == |x|
  {
    seq(|x|, i requires 0 <= i < |x| => Add(x[i], y[i]))
  }

  function MulSeq(a: Complex, x: seq<Complex>): (r: seq<Complex>)
    ensures |r| == |x|
  {
    seq(|x|, i requires 0 <= i < |x| => Mul(a, x[i]))
  }

  lemma {:induction false} EvalAddSeq(x: seq<Complex>, y: seq<Complex>, z: Complex)
    requires |x| == |y|
    ensures Eval(AddSeq(x, y), z) == Add(Eval(x, z), Eval(y, z))
  {
    if x == [] {
    } else {
      EvalAddSeq(x[1..], y[1..], z);
      assert AddSeq(x, y)[1..] == AddSeq(x[1..], y[1..]);
      MulAdd(z, Eval(x[1..], z), Eval(y[1..], z));
    }
  }

  lemma {:induction false} EvalMulSeq(a: Complex, x: seq<Complex>, z: Complex)
    ensures Eval(MulSeq(a, x), z) == Mul(a, Eval(x, z))
  {
    if x == [] {
    } else {
      EvalMulSeq(a, x[1..], z);
      assert MulSeq(a, x)[1..] == MulSeq(a, x[1..]);
      MulAdd(a, x[0], Mul(z, Eval(x[1..], z)));
      MulSwap(a, z, Eval(x[1..], z));
    }
  }

  // ----- orthogonality and inversion -----

  function Powers(q: Complex, n: nat): (r: seq<Complex>)
    ensures |r| == n
  {
    seq(n, k requires 0 <= k < n => Pow(q, k))
  }

  function Ones(n: nat): (r: seq<Complex>)
    ensures |r| == n
  {
    seq(n, _ => One)
  }

  lemma {:induction false} EvalOnesAtOne(n: nat)
    ensures Eval(Ones(n), One) == Complex(n as real, 0.0)
  {
    if n == 0 {
    } else {
      EvalOnesAtOne(n - 1);
      assert Ones(n)[1..] == Ones(n - 1);
    }
  }

  lemma OnesSplit(half: nat, q: Complex)
    ensures Eval(Ones(2 * half), q) == Add(Eval(Ones(half), Mul(q, q)), Mul(q, Eval(Ones(half), Mul(q, q))))
  {
    hide Mul, Add;
    EvalSplit(Ones(2 * half), q);
    assert Evens(Ones(2 * half)) == Ones(half) == Odds(Ones(2 * half));
  }

  lemma SquareOfRootPower(w: nat -> Complex, s: nat, d: nat)
    requires RootTower(w)
    ensures Mul(Pow(w(s + 1), d), Pow(w(s + 1), d)) == Pow(w(s), d)
  {
    hide Mul;
    PowProduct(w(s + 1), w(s + 1), d);
    assert SquaresDown(w, s);
  }

  /** 1 + q + ... + q^(n-1) vanishes at every nontrivial n-th root of unity q, n = 2^m. */
  lemma {:induction false} GeometricSumVanishes(w: nat -> Complex, m: nat, d: nat)
    requires RootTower(w) && 0 < d < Exp2(m)
    ensures Eval(Ones(Exp2(m)), Pow(w(m), d)) == Zero
  {
    hide Mul, Eval, Pow, RootTower;
    var half := Exp2(m - 1);
    var q := Pow(w(m), d);
    OnesSplit(half, q);
    SquareOfRootPower(w, m - 1, d);
    var e := Eval(Ones(half), Pow(w(m - 1), d));
    assert Eval(Ones(Exp2(m)), q) == Add(e, Mul(q, e));
    if d == half {
      HalfTurn(w, m - 1);
      MulMinusOne(e);
    } else {
      if d > half {
        PowPeriodic(w, m - 1, d - half);
        GeometricSumVanishes(w, m - 1, d - half);
      } else {
        GeometricSumVanishes(w, m - 1, d);
      }
      MulZero(q);
    }
  }

  /** The values Eval(x, w^k) * w^(k*s) for k = 0 .. n-1: the transform of x placed at offset s. */
  function Spectrum(x: seq<Complex>, w: Complex, s: nat, n: nat): (r: seq<Complex>)
    ensures |r| == n
  {
    seq(n, k requires 0 <= k < n => Mul(Pow(w, k * s), Eval(x, Pow(w, k))))
  }

  lemma {:induction false} EvalOfPowers(q: Complex, n: nat, u: Complex)
    ensures Eval(Powers(q, n), u) == Eval(Ones(n), Mul(q, u))
  {
    hide Mul;
    if n == 0 {
    } else {
      EvalOfPowers(q, n - 1, u);
      var tail := Powers(q, n - 1);
      assert Powers(q, n)[0] == One;
      assert Powers(q, n)[1..] == MulSeq(q, tail);
      EvalMulSeq(q, tail, u);
      assert Ones(n)[1..] == Ones(n - 1);
      MulSwap(u, q, Eval(tail, u));
      MulAssoc(q, u, Eval(tail, u));
    }
  }

  /** Peeling the first sample off a shifted spectrum. */
  lemma SpectrumStep(x: seq<Complex>, w: Complex, s: nat, n: nat)
    requires x != []
    ensures Spectrum(x, w, s, n) == AddSeq(MulSeq(x[0], Powers(Pow(w, s), n)), Spectrum(x[1..], w, s + 1, n))
  {
    hide Mul, Add, Pow, Eval;
    var lhs := Spectrum(x, w, s, n);
    var rhs := AddSeq(MulSeq(x[0], Powers(Pow(w, s), n)), Spectrum(x[1..], w, s + 1, n));
    forall k: nat | k < n ensures lhs[k] == rhs[k] {
      SpectrumStepAt(x, w, s, k);
    }
  }

  lemma SpectrumStepAt(x: seq<Complex>, w: Complex, s: nat, k: nat)
    requires x != []
    ensures Mul(Pow(w, k * s), Eval(x, Pow(w, k))) ==
            Add(Mul(x[0], Pow(Pow(w, s), k)), Mul(Pow(w, k * (s + 1)), Eval(x[1..], Pow(w, k))))
  {
    hide Mul, Add;
    var p, z, e := Pow(w, k * s), Pow(w, k), Eval(x[1..], Pow(w, k));
    PowOfPow(w, s, k);
    assert s * k == k * s && k * (s + 1) == k * s + k;
    PowAdd(w, k * s, k);
    MulAdd(p, x[0], Mul(z, e));
    MulComm(p, x[0]);
    MulAssoc(p, z, e);
  }

  /** Evaluating a shifted spectrum at v^t picks out sample t (v inverse to w), times n. */
  lemma {:induction false} SpectrumInverts(x: seq<Complex>, w: nat -> Complex, v: nat -> Complex, m: nat, s: nat,
                                           t: nat)
    requires RootTower(w) && RootTower(v) && Mul(w(m), v(m)) == One
    requires s + |x| <= Exp2(m) && t < Exp2(m)
    ensures Eval(Spectrum(x, w(m), s, Exp2(m)), Pow(v(m), t)) ==
            if s <= t < s + |x| then Scale(Exp2(m) as real, x[t - s]) else Zero
  {
    hide Mul, Eval, Pow, RootTower, Exp2;
    var n, u := Exp2(m), Pow(v(m), t);
    if x == [] {
      EmptySpectrum(w(m), s, n, u);
    } else {
      SpectrumStep(x, w(m), s, n);
      var head := Powers(Pow(w(m), s), n);
      EvalAddSeq(MulSeq(x[0], head), Spectrum(x[1..], w(m), s + 1, n), u);
      EvalMulSeq(x[0], head, u);
      SpectrumInverts(x[1..], w, v, m, s + 1, t);
      EvalOfPowers(Pow(w(m), s), n, u);
      Orthogonality(w, v, m, s, t);
      MulZero(x[0]);
      MulReal(n as real, x[0]);
    }
  }

  lemma EmptySpectrum(w: Complex, s: nat, n: nat, u: Complex)
    ensures Eval(Spectrum([], w, s, n), u) == Zero
  {
    hide Mul;
    forall k: nat | k < n ensures Spectrum([], w, s, n)[k] == MulSeq(Zero, Ones(n))[k] {
      MulZero(Pow(w, k * s));
      MulZero(One);
    }
    assert Spectrum([], w, s, n) == MulSeq(Zero, Ones(n));
    EvalMulSeq(Zero, Ones(n), u);
    MulZero(Eval(Ones(n), u));
  }

  lemma Orthogonality(w: nat -> Complex, v: nat -> Complex, m: nat, s: nat, t: nat)
    requires RootTower(w) && RootTower(v) && Mul(w(m), v(m)) == One
    requires s < Exp2(m) && t < Exp2(m)
    ensures Eval(Ones(Exp2(m)), Mul(Pow(w(m), s), Pow(v(m), t))) ==
            if s == t then Complex(Exp2(m) as real, 0.0) else Zero
  {
    hide Mul;
    if s >= t {
      CancelPowers(w(m), v(m), s, t);
      if s == t {
        EvalOnesAtOne(Exp2(m));
      } else {
        GeometricSumVanishes(w, m, s - t);
      }
    } else {
      MulComm(w(m), v(m));
      MulComm(Pow(w(m), s), Pow(v(m), t));
      CancelPowers(v(m), w(m), t, s);
      GeometricSumVanishes(v, m, t - s);
    }
  }

  lemma CancelPowers(a: Complex, b: Complex, s: nat, t: nat)
    requires Mul(a, b) == One && t <= s
    ensures Mul(Pow(a, s), Pow(b, t)) == Pow(a, s - t)
  {
    hide Mul;
    MulOne(Pow(a, s - t));
    PowAdd(a, s - t, t);
    MulAssoc(Pow(a, s - t), Pow(a, t), Pow(b, t));
    PowProduct(a, b, t);
    PowOne(t);
  }

  // ----- the transforms that the solver returns -----

  /** Forward (`inverse == false`) or inverse transform of a sequence, by its definition. */
  function Transform(x: seq<Complex>, t: Trig, inverse: bool): (r: seq<Complex>)
    requires |x| >= 1
    ensures |r| == |x|
  {
    var w := Root(t, inverse)(Log2(|x|));
    var scale := if inverse then 1.0 / (|x| as real) else 1.0;
    seq(|x|, k requires 0 <= k < |x| => Scale(scale, DftSum(x, w, k, |x|)))
  }

  lemma TransformIsEval(x: seq<Complex>, t: Trig, inverse: bool, k: nat)
    requires k < |x|
    ensures Transform(x, t, inverse)[k] ==
            Scale(if inverse then 1.0 / (|x| as real) else 1.0, Eval(x, Pow(Root(t, inverse)(Log2(|x|)), k)))
  {
    EvalIsDftSum(x, Root(t, inverse)(Log2(|x|)), k, |x|);
    assert x[..|x|] == x;
  }

  /** The inverse transform undoes the forward one, and the forward one undoes the inverse. */
  lemma TransformRoundTrip(x: seq<Complex>, t: Trig, inverse: bool)
    requires HalfAngles(t) && |x| >= 1 && IsPowerOfTwo(|x|)
    ensures Transform(Transform(x, t, inverse), t, !inverse) == x
  {
    hide Mul;
    var m: nat :| |x| == Exp2(m);
    Log2OfExp2(m);
    RootsFormTowers(t, inverse);
    RootsFormTowers(t, !inverse);
    var w, v := Root(t, inverse), Root(t, !inverse);
    var n := |x| as real;
    var y := Transform(x, t, inverse);
    var c := if inverse then 1.0 / n else 1.0;
    var spectrum := Spectrum(x, w(m), 0, |x|);
    forall k: nat | k < |x| ensures y[k] == MulSeq(Complex(c, 0.0), spectrum)[k] {
      TransformIsEval(x, t, inverse, k);
      assert k * 0 == 0;
      MulOne(Eval(x, Pow(w(m), k)));
      MulReal(c, Eval(x, Pow(w(m), k)));
    }
    assert y == MulSeq(Complex(c, 0.0), spectrum);
    forall j: nat | j < |x| ensures Transform(y, t, !inverse)[j] == x[j] {
      TransformIsEval(y, t, !inverse, j);
      EvalMulSeq(Complex(c, 0.0), spectrum, Pow(v(m), j));
      SpectrumInverts(x, w, v, m, 0, j);
      ScaleBack(n, c, if !inverse then 1.0 / n else 1.0, x[j]);
    }
  }

  lemma ScaleBack(n: real, c: real, d: real, a: Complex)
    requires n > 0.0 && ((c == 1.0 / n && d == 1.0) || (c == 1.0 && d == 1.0 / n))
    ensures Scale(d, Mul(Complex(c, 0.0), Scale(n, a))) == a
  {
    assert c * n == n || c * n == 1.0;
    assert d * (c * n) == 1.0;
    ScaleAssoc(d, c, n, a.re);
    ScaleAssoc(d, c, n, a.im);
  }

  lemma ScaleAssoc(d: real, c: real, n: real, r: real)
    ensures d * (c * (n * r)) == (d * (c * n)) * r
  {
  }

  // ----- pure waves -----

  /** The samples z^(k0 * j), j = 0 .. n-1. */
  function Wave(z: Complex, k0: nat, n: nat): (r: seq<Complex>)
    ensures |r| == n
  {
    seq(n, (j: nat) => Pow(z, k0 * j))
  }

  lemma WaveIsPowers(z: Complex, k0: nat, n: nat)
    ensures Wave(z, k0, n) == Powers(Pow(z, k0), n)
  {
    hide Pow;
    forall j: nat | j < n ensures Wave(z, k0, n)[j] == Powers(Pow(z, k0), n)[j] {
      PowOfPow(z, k0, j);
    }
  }

  /** The forward kernel turns clockwise and the inverse one counter-clockwise: the wave of frequency k0 that turns
      counter-clockwise with cos + i sin is found at index k0 by the forward transform, with weight n, and the clockwise
      one by the inverse transform, with weight one; every other index is zero. */
  lemma PureWave(t: Trig, m: nat, k0: nat, k: nat)
    requires HalfAngles(t) && k0 < Exp2(m) && k < Exp2(m)
    ensures var n := Exp2(m);
            && Transform(Wave(Complex(t.cosine(m), t.sine(m)), k0, n), t, false)[k] ==
               (if k == k0 then Complex(n as real, 0.0) else Complex(0.0, 0.0))
            && Transform(Wave(Complex(t.cosine(m), -t.sine(m)), k0, n), t, true)[k] ==
               (if k == k0 then Complex(1.0, 0.0) else Complex(0.0, 0.0))
  {
    hide Transform, Wave, HalfAngles, Scale, Exp2;
    ExpPositive(m);
    WaveAt(t, false, m, k0, k);
    WaveAt(t, true, m, k0, k);
    ScaledCount(Exp2(m) as real);
  }

  lemma ExpPositive(m: nat)
    ensures Exp2(m) >= 1
  {
  }

  lemma ScaledCount(n: real)
    requires n >= 1.0
    ensures Scale(1.0, Complex(n, 0.0)) == Complex(n, 0.0) && Scale(1.0, Zero) == Zero
    ensures Scale(1.0 / n, Complex(n, 0.0)) == Complex(1.0, 0.0) && Scale(1.0 / n, Zero) == Zero
  {
    var q := 1.0 / n;
    assert q * n == 1.0 && q * 0.0 == 0.0;
  }

  lemma WaveAt(t: Trig, inverse: bool, m: nat, k0: nat, k: nat)
    requires HalfAngles(t) && k0 < Exp2(m) && k < Exp2(m)
    ensures var n := Exp2(m);
            Transform(Wave(Root(t, !inverse)(m), k0, n), t, inverse)[k] ==
            Scale(if inverse then 1.0 / (n as real) else 1.0, if k == k0 then Complex(n as real, 0.0) else Zero)
  {
    hide Mul, Eval, Pow, Root, Wave, HalfAngles, Exp2, Transform;
    var n, z := Exp2(m), Root(t, !inverse)(m);
    Log2OfExp2(m);
    RootsFormTowers(t, inverse);
    RootsFormTowers(t, !inverse);
    WaveIsPowers(z, k0, n);
    TransformIsEval(Wave(z, k0, n), t, inverse, k);
    EvalOfPowers(Pow(z, k0), n, Pow(Root(t, inverse)(m), k));
    Orthogonality(Root(t, !inverse), Root(t, inverse), m, k0, k);
  }
}
