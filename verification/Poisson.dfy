/** The periodic Poisson inversion of the finite-difference MHD solver: forward transform, division by
    the symbol of the five-point operator, inverse transform. It inverts that operator exactly. */
module Poisson {
  import opened Bits
  import opened ComplexNumbers
  import opened Dft
  import opened Fft
  import opened Fft2
  import opened Grid
  import opened Wrappers

  const SYMBOL_FLOOR := 0.000000000000001

  // ----- the method's ingredients -----

  /** Signed wavenumber of a spectrum index. */
  function Mode(index: nat, n: nat): int {
    if index < n / 2 then index else index - n
  }

  /** What the sine calls of the solver supply: sin^2(theta/2) = (1 - cos theta)/2 at every wavenumber. */
  ghost predicate HalfSines(sinHalf: int -> real, t: Trig, n: nat)
    requires n >= 1
  {
    forall k: nat :: k < n ==> HalfSineAt(sinHalf, t, n, k)
  }

  ghost predicate HalfSineAt(sinHalf: int -> real, t: Trig, n: nat, k: nat)
    requires n >= 1
  {
    2.0 * (sinHalf(Mode(k, n)) * sinHalf(Mode(k, n))) == 1.0 - Pow(Root(t, false)(Log2(n)), k).re
  }

  function Symbol(sinHalf: int -> real, n: nat, h2: real, k: nat, l: nat): real
    requires h2 > 0.0
  {
    var sx, sy := sinHalf(Mode(k, n)), sinHalf(Mode(l, n));
    4.0 * (sx * sx + sy * sy) / h2
  }

  function DivideBy(a: Complex, s: real): Complex
    requires s != 0.0
  {
    Complex(a.re / s, a.im / s)
  }

  function SolutionMode(a: Complex, symbol: real): Complex {
    if symbol <= SYMBOL_FLOOR then Zero else DivideBy(a, symbol)
  }

  function SolutionHat(hat: Plane, sinHalf: int -> real, h2: real, n: nat): (r: Plane)
    requires Rectangle(hat, n, n) && h2 > 0.0
    ensures Rectangle(r, n, n)
    ensures forall k: nat, l: nat :: k < n && l < n ==> r[k][l] == SolutionMode(hat[k][l], Symbol(sinHalf, n, h2, k, l))
  {
    seq(n, k requires 0 <= k < n =>
      seq(n, l requires 0 <= l < n => SolutionMode(hat[k][l], Symbol(sinHalf, n, h2, k, l))))
  }

  function ToPlane(f: Field, n: nat): (r: Plane)
    requires Square(f, n)
    ensures Rectangle(r, n, n)
    ensures forall i: nat, j: nat :: i < n && j < n ==> r[i][j] == Complex(At(f, i, j), 0.0)
  {
    seq(n, i requires 0 <= i < n => seq(n, j requires 0 <= j < n => Complex(f[i][j], 0.0)))
  }

  function RealParts(z: Plane, n: nat): (r: Field)
    requires Rectangle(z, n, n)
    ensures Square(r, n)
    ensures forall i: nat, j: nat :: i < n && j < n ==> At(r, i, j) == z[i][j].re
  {
    seq(n, i requires 0 <= i < n => seq(n, j requires 0 <= j < n => z[i][j].re))
  }

  /** The composition the source evaluates. */
  function PoissonSolution(rhs: Field, t: Trig, sinHalf: int -> real, h2: real): Field
    requires |rhs| >= 1 && Square(rhs, |rhs|) && h2 > 0.0
  {
    var n := |rhs|;
    var hat := Transform2(ToPlane(rhs, n), t, false);
    RealParts(Transform2(SolutionHat(hat, sinHalf, h2, n), t, true), n)
  }

  // ----- the symbol vanishes only at the mean mode -----

  /** Squared distance of a point of the unit circle from 1. */
  function Gap(z: Complex): real {
    2.0 - 2.0 * z.re
  }

  ghost predicate OnCircle(z: Complex) {
    z.re * z.re + z.im * z.im == 1.0
  }

  lemma ProductOnCircle(a: Complex, b: Complex)
    requires OnCircle(a) && OnCircle(b)
    ensures OnCircle(Mul(a, b))
  {
    var p, q := a.re * a.re + a.im * a.im, b.re * b.re + b.im * b.im;
    var c := Mul(a, b);
    assert c.re * c.re + c.im * c.im == p * q;
  }

  lemma {:induction false} PowOnCircle(z: Complex, k: nat)
    requires OnCircle(z)
    ensures OnCircle(Pow(z, k))
  {
    hide Mul;
    if k == 0 {
    } else {
      PowOnCircle(z, k - 1);
      ProductOnCircle(z, Pow(z, k - 1));
    }
  }

  /** Squaring a point of the circle at most quadruples its squared distance from 1. */
  lemma GapOfSquare(z: Complex)
    requires OnCircle(z)
    ensures 0.0 <= Gap(Mul(z, z)) <= 4.0 * Gap(z)
  {
    var a, b := z.re, z.im;
    assert b * b >= 0.0;
    assert a * a <= 1.0;
    assert a > 1.0 ==> a * a > 1.0;
    assert a < -1.0 ==> a * a > 1.0;
    assert Gap(Mul(z, z)) == 4.0 - 4.0 * (a * a);
    assert 4.0 * Gap(z) - Gap(Mul(z, z)) == 4.0 * ((1.0 - a) * (1.0 - a));
  }

  function Area(n: nat): real {
    (n * n) as real
  }

  lemma AreaDoubles(n: nat)
    requires n >= 1
    ensures Area(2 * n) == 4.0 * Area(n) && Area(n) >= 1.0
  {
    assert (2 * n) * (2 * n) == 4 * (n * n);
    assert n * n >= 1;
  }

  /** Away from the mean mode a stage root stays at distance at least 4/n from 1. */
  lemma {:induction false} RootGap(w: nat -> Complex, m: nat, k: nat)
    requires RootTower(w) && 0 < k < Exp2(m)
    requires forall s: nat :: OnCircle(w(s))
    ensures Gap(Pow(w(m), k)) * Area(Exp2(m)) >= 16.0
  {
    hide Gap, Mul, Area, RootTower, OnCircle, Pow;
    var half := Exp2(m - 1);
    var z := Pow(w(m), k);
    AreaDoubles(half);
    if k == half {
      HalfTurn(w, m - 1);
      GapAtMinusOne(Area(Exp2(m)));
    } else {
      var k' := if k > half then k - half else k;
      if k > half { PowPeriodic(w, m - 1, k - half); }
      SquareOfRootPower(w, m - 1, k);
      RootGap(w, m - 1, k');
      PowOnCircle(w(m), k);
      GapOfSquare(z);
      QuarterScale(Gap(Mul(z, z)), Gap(z), Area(half), Area(Exp2(m)));
    }
  }

  lemma GapAtMinusOne(area: real)
    requires area >= 4.0
    ensures Gap(MinusOne) * area >= 16.0
  {
  }

  lemma QuarterScale(d': real, d: real, h2: real, n2: real)
    requires d' <= 4.0 * d && n2 == 4.0 * h2 && h2 >= 1.0 && d' * h2 >= 16.0
    ensures d * n2 >= 16.0
  {
    assert (4.0 * d - d') * h2 >= 0.0;
    assert d * n2 == (4.0 * d) * h2;
  }

  /** The 1e-15 cut-off of the source fires at the mean mode and nowhere else. */
  lemma SymbolFloorHitsMeanOnly(t: Trig, sinHalf: int -> real, m: nat, twoPi: real, h2: real, k: nat, l: nat)
    requires HalfAngles(t) && HalfSines(sinHalf, t, Exp2(m)) && k < Exp2(m) && l < Exp2(m)
    requires 0.0 < twoPi <= 7.0 && h2 * Area(Exp2(m)) == twoPi * twoPi && h2 > 0.0
    ensures Symbol(sinHalf, Exp2(m), h2, k, l) <= SYMBOL_FLOOR <==> k == 0 && l == 0
    ensures Symbol(sinHalf, Exp2(m), h2, k, l) * h2 ==
            Gap(Pow(Root(t, false)(m), k)) + Gap(Pow(Root(t, false)(m), l))
  {
    hide Gap, Symbol, HalfSines, HalfAngles, Area, Pow, Root;
    var n := Exp2(m);
    var w := Root(t, false);
    Log2OfExp2(m);
    AreaPositive(n);
    SymbolIsGaps(t, sinHalf, m, h2, k, l);
    ModeGap(t, m, k);
    ModeGap(t, m, l);
    var gk, gl := Gap(Pow(w(m), k)), Gap(Pow(w(m), l));
    FloorDecides(Symbol(sinHalf, n, h2, k, l), gk, gl, h2, twoPi, Area(n), k != 0, l != 0);
  }

  lemma SymbolTop(sinHalf: int -> real, n: nat, h2: real, k: nat, l: nat)
    requires h2 > 0.0
    ensures var sx, sy := sinHalf(Mode(k, n)), sinHalf(Mode(l, n));
            Symbol(sinHalf, n, h2, k, l) * h2 == 4.0 * (sx * sx + sy * sy)
  {
    var sx, sy := sinHalf(Mode(k, n)), sinHalf(Mode(l, n));
    Quotient(4.0 * (sx * sx + sy * sy), h2);
  }

  lemma SymbolIsGaps(t: Trig, sinHalf: int -> real, m: nat, h2: real, k: nat, l: nat)
    requires HalfSines(sinHalf, t, Exp2(m)) && k < Exp2(m) && l < Exp2(m) && h2 > 0.0
    ensures Symbol(sinHalf, Exp2(m), h2, k, l) * h2 == Gap(Pow(Root(t, false)(m), k)) + Gap(Pow(Root(t, false)(m), l))
  {
    hide Root, Pow, Mul, Symbol, Mode;
    var n := Exp2(m);
    Log2OfExp2(m);
    assert HalfSineAt(sinHalf, t, n, k) && HalfSineAt(sinHalf, t, n, l);
    SymbolTop(sinHalf, n, h2, k, l);
  }

  lemma ModeGap(t: Trig, m: nat, k: nat)
    requires HalfAngles(t) && k < Exp2(m)
    ensures k == 0 ==> Gap(Pow(Root(t, false)(m), k)) == 0.0
    ensures k != 0 ==> Gap(Pow(Root(t, false)(m), k)) * Area(Exp2(m)) >= 16.0
  {
    hide HalfAngles, RootTower, OnCircle, Pow, Area, Mul, Root;
    var w := Root(t, false);
    if k == 0 {
      PowZero(w(m));
    } else {
      RootsFormTowers(t, false);
      forall s: nat ensures OnCircle(w(s)) {
        StageRootOnCircle(t, s);
      }
      RootGap(w, m, k);
    }
  }

  lemma StageRootOnCircle(t: Trig, s: nat)
    requires HalfAngles(t)
    ensures OnCircle(Root(t, false)(s))
  {
    assert DoubleAngleAt(t, s);
    var d := t.sine(s);
    assert (-d) * (-d) == d * d;
  }

  lemma AreaPositive(n: nat)
    requires n >= 1
    ensures Area(n) >= 1.0
  {
    AreaDoubles(n);
  }

  lemma FloorDecides(symbol: real, gk: real, gl: real, h2: real, twoPi: real, n2: real, k: bool, l: bool)
    requires symbol * h2 == gk + gl && h2 > 0.0 && 0.0 < twoPi <= 7.0 && h2 * n2 == twoPi * twoPi && n2 > 0.0
    requires if k then gk * n2 >= 16.0 else gk == 0.0
    requires if l then gl * n2 >= 16.0 else gl == 0.0
    ensures symbol <= SYMBOL_FLOOR <==> !k && !l
  {
    if !k && !l {
      if symbol > 0.0 { assert symbol * h2 > 0.0; }
    } else {
      assert (gk + gl) * n2 >= 16.0 by { assert (gk + gl) * n2 == gk * n2 + gl * n2; }
      assert twoPi * twoPi <= 7.0 * twoPi;
      var t2 := twoPi * twoPi;
      assert symbol * t2 == (gk + gl) * n2 by {
        assert symbol * t2 == symbol * (h2 * n2);
        assert symbol * (h2 * n2) == (symbol * h2) * n2;
      }
      assert symbol <= 0.0 ==> symbol * t2 <= 0.0;
      assert symbol >= 0.0 ==> symbol * t2 <= symbol * 49.0;
    }
  }

  // ----- neighbours of the inverse transform -----

  /** Multiplying mode k by c^k moves the evaluation point by c. */
  function Twist(x: seq<Complex>, c: Complex): (r: seq<Complex>)
    ensures |r| == |x|
  {
    seq(|x|, k requires 0 <= k < |x| => Mul(Pow(c, k), x[k]))
  }

  lemma {:induction false} EvalTwist(x: seq<Complex>, c: Complex, a: Complex)
    ensures Eval(x, Mul(c, a)) == Eval(Twist(x, c), a)
  {
    hide Mul, Add;
    if x == [] {
    } else {
      var y := x[1..];
      EvalTwist(y, c, a);
      forall k | 0 <= k < |y| ensures Twist(x, c)[1..][k] == MulSeq(c, Twist(y, c))[k] {
        MulAssoc(c, Pow(c, k), y[k]);
      }
      assert Twist(x, c)[1..] == MulSeq(c, Twist(y, c));
      EvalMulSeq(c, Twist(y, c), a);
      PowZero(c);
      MulOne(x[0]);
      MulAssoc(c, a, Eval(y, Mul(c, a)));
      MulSwap(c, a, Eval(y, Mul(c, a)));
    }
  }

  function TwistRows(z: Plane, c: Complex, n: nat): (r: Plane)
    requires Rectangle(z, n, n)
    ensures Rectangle(r, n, n)
    ensures forall k: nat, l: nat :: k < n && l < n ==> r[k][l] == Mul(Pow(c, k), z[k][l])
  {
    seq(n, k requires 0 <= k < n => seq(n, l requires 0 <= l < n => Mul(Pow(c, k), z[k][l])))
  }

  function TwistColumns(z: Plane, c: Complex, n: nat): (r: Plane)
    requires Rectangle(z, n, n)
    ensures Rectangle(r, n, n)
    ensures forall k: nat, l: nat :: k < n && l < n ==> r[k][l] == Mul(Pow(c, l), z[k][l])
  {
    seq(n, k requires 0 <= k < n => seq(n, l requires 0 <= l < n => Mul(Pow(c, l), z[k][l])))
  }

  lemma Eval2Twist(z: Plane, n: nat, c: Complex, a: Complex, b: Complex)
    requires Rectangle(z, n, n)
    ensures Eval2(z, Mul(c, a), b) == Eval2(TwistRows(z, c, n), a, b)
    ensures Eval2(z, a, Mul(c, b)) == Eval2(TwistColumns(z, c, n), a, b)
  {
    hide Mul, Add, Eval, Pow;
    forall k: nat | k < n
      ensures EvalRows(TwistRows(z, c, n), b)[k] == Twist(EvalRows(z, b), c)[k]
      ensures EvalRows(TwistColumns(z, c, n), b)[k] == EvalRows(z, Mul(c, b))[k]
    {
      assert TwistRows(z, c, n)[k] == MulSeq(Pow(c, k), z[k]);
      EvalMulSeq(Pow(c, k), z[k], b);
      assert TwistColumns(z, c, n)[k] == Twist(z[k], c);
      EvalTwist(z[k], c, b);
    }
    assert EvalRows(TwistRows(z, c, n), b) == Twist(EvalRows(z, b), c);
    assert EvalRows(TwistColumns(z, c, n), b) == EvalRows(z, Mul(c, b));
    EvalTwist(EvalRows(z, b), c, a);
  }

  lemma Eval2Add(z: Plane, x: Plane, y: Plane, n: nat, a: Complex, b: Complex)
    requires Rectangle(z, n, n) && Rectangle(x, n, n) && Rectangle(y, n, n)
    requires forall k: nat, l: nat :: k < n && l < n ==> z[k][l] == Add(x[k][l], y[k][l])
    ensures Eval2(z, a, b) == Add(Eval2(x, a, b), Eval2(y, a, b))
  {
    hide Mul, Add, Eval;
    forall k: nat | k < n ensures EvalRows(z, b)[k] == AddSeq(EvalRows(x, b), EvalRows(y, b))[k] {
      assert z[k] == AddSeq(x[k], y[k]);
      EvalAddSeq(x[k], y[k], b);
    }
    assert EvalRows(z, b) == AddSeq(EvalRows(x, b), EvalRows(y, b));
    EvalAddSeq(EvalRows(x, b), EvalRows(y, b), a);
  }

  function ScalePlane(s: real, z: Plane, n: nat): (r: Plane)
    requires Rectangle(z, n, n)
    ensures Rectangle(r, n, n)
    ensures forall k: nat, l: nat :: k < n && l < n ==> r[k][l] == Scale(s, z[k][l])
  {
    seq(n, k requires 0 <= k < n => seq(n, l requires 0 <= l < n => Scale(s, z[k][l])))
  }

  function AddPlanes(x: Plane, y: Plane, n: nat): (r: Plane)
    requires Rectangle(x, n, n) && Rectangle(y, n, n)
    ensures Rectangle(r, n, n)
    ensures forall k: nat, l: nat :: k < n && l < n ==> r[k][l] == Add(x[k][l], y[k][l])
  {
    seq(n, k requires 0 <= k < n => seq(n, l requires 0 <= l < n => Add(x[k][l], y[k][l])))
  }

  lemma Eval2AddPlanes(x: Plane, y: Plane, n: nat, a: Complex, b: Complex)
    requires Rectangle(x, n, n) && Rectangle(y, n, n)
    ensures Eval2(AddPlanes(x, y, n), a, b) == Add(Eval2(x, a, b), Eval2(y, a, b))
  {
    Eval2Add(AddPlanes(x, y, n), x, y, n, a, b);
  }

  lemma Eval2Scale(s: real, z: Plane, n: nat, a: Complex, b: Complex)
    requires Rectangle(z, n, n)
    ensures Eval2(ScalePlane(s, z, n), a, b) == Scale(s, Eval2(z, a, b))
  {
    hide Mul, Add, Eval, Scale;
    var c := Complex(s, 0.0);
    forall k: nat | k < n ensures EvalRows(ScalePlane(s, z, n), b)[k] == MulSeq(c, EvalRows(z, b))[k] {
      forall l: nat | l < n ensures ScalePlane(s, z, n)[k][l] == MulSeq(c, z[k])[l] {
        MulReal(s, z[k][l]);
      }
      assert ScalePlane(s, z, n)[k] == MulSeq(c, z[k]);
      EvalMulSeq(c, z[k], b);
    }
    assert EvalRows(ScalePlane(s, z, n), b) == MulSeq(c, EvalRows(z, b));
    EvalMulSeq(c, EvalRows(z, b), a);
    MulReal(s, Eval2(z, a, b));
  }

  /** Moving one grid step multiplies the evaluation point by the stage root or its inverse. */
  lemma NeighbourPowers(w: nat -> Complex, v: nat -> Complex, m: nat, p: nat)
    requires InverseRoots(w, v, m) && p < Exp2(m)
    ensures Pow(v(m), Next(p, Exp2(m))) == Mul(v(m), Pow(v(m), p))
    ensures Pow(v(m), Prev(p, Exp2(m))) == Mul(w(m), Pow(v(m), p))
  {
    hide Mul;
    var n := Exp2(m);
    StepPower(v, m, p);
    var q := Prev(p, n);
    StepPower(v, m, q);
    assert Pow(v(m), p) == Mul(v(m), Pow(v(m), q));
    MulAssoc(w(m), v(m), Pow(v(m), q));
    MulOne(Pow(v(m), q));
  }

  lemma StepPower(v: nat -> Complex, m: nat, p: nat)
    requires RootTower(v) && p < Exp2(m)
    ensures Pow(v(m), Next(p, Exp2(m))) == Mul(v(m), Pow(v(m), p))
  {
    hide Mul;
    assert Pow(v(m), p + 1) == Mul(v(m), Pow(v(m), p));
    FullTurn(v, m);
    PowZero(v(m));
  }

  /** The five-point sum of the sampled double sum, as one double sum. */
  function FivePointHat(s: Plane, w: Complex, v: Complex, n: nat): (r: Plane)
    requires Rectangle(s, n, n)
    ensures Rectangle(r, n, n)
  {
    AddPlanes(AddPlanes(AddPlanes(TwistRows(s, v, n), TwistRows(s, w, n), n),
                        AddPlanes(TwistColumns(s, v, n), TwistColumns(s, w, n), n), n),
              ScalePlane(-4.0, s, n), n)
  }

  function Sample(s: Plane, v: Complex, p: nat, q: nat): Complex {
    Eval2(s, Pow(v, p), Pow(v, q))
  }

  lemma FivePointOfSamples(s: Plane, w: nat -> Complex, v: nat -> Complex, m: nat, p: nat, q: nat)
    requires InverseRoots(w, v, m) && Rectangle(s, Exp2(m), Exp2(m)) && p < Exp2(m) && q < Exp2(m)
    ensures var n := Exp2(m);
            Sample(FivePointHat(s, w(m), v(m), n), v(m), p, q) ==
            Add(Add(Add(Sample(s, v(m), Next(p, n), q), Sample(s, v(m), Prev(p, n), q)),
                    Add(Sample(s, v(m), p, Next(q, n)), Sample(s, v(m), p, Prev(q, n)))),
                Scale(-4.0, Sample(s, v(m), p, q)))
  {
    hide Mul, Add, Eval2, Pow, Scale, InverseRoots;
    var n := Exp2(m);
    var a, b := Pow(v(m), p), Pow(v(m), q);
    NeighbourPowers(w, v, m, p);
    NeighbourPowers(w, v, m, q);
    Eval2Twist(s, n, v(m), a, b);
    Eval2Twist(s, n, w(m), a, b);
    var e, f := TwistRows(s, v(m), n), TwistRows(s, w(m), n);
    var g, h := TwistColumns(s, v(m), n), TwistColumns(s, w(m), n);
    Eval2AddPlanes(e, f, n, a, b);
    Eval2AddPlanes(g, h, n, a, b);
    Eval2AddPlanes(AddPlanes(e, f, n), AddPlanes(g, h, n), n, a, b);
    Eval2Scale(-4.0, s, n, a, b);
    Eval2AddPlanes(AddPlanes(AddPlanes(e, f, n), AddPlanes(g, h, n), n), ScalePlane(-4.0, s, n), n, a, b);
  }

  /** Opposite roots are conjugate, so their powers sum to a real number. */
  lemma {:induction false} ConjugatePowers(t: Trig, m: nat, k: nat)
    ensures Pow(Root(t, true)(m), k) == Conj(Pow(Root(t, false)(m), k))
  {
    if k == 0 {
    } else {
      ConjugatePowers(t, m, k - 1);
      var w := Root(t, false)(m);
      ConjMul(w, Pow(w, k - 1));
      hide Mul;
    }
  }

  lemma ConjMul(a: Complex, b: Complex)
    ensures Conj(Mul(a, b)) == Mul(Conj(a), Conj(b))
  {
    assert (-a.im) * (-b.im) == a.im * b.im;
  }

  /** On each mode the five-point sum multiplies by minus the two gaps. */
  lemma FivePointHatAt(s: Plane, t: Trig, m: nat, n: nat, k: nat, l: nat)
    requires Rectangle(s, n, n) && k < n && l < n
    ensures var w, v := Root(t, false)(m), Root(t, true)(m);
            FivePointHat(s, w, v, n)[k][l] == Scale(-(Gap(Pow(w, k)) + Gap(Pow(w, l))), s[k][l])
  {
    hide Mul, Add, Scale, Gap, Pow, Conj;
    var w, v := Root(t, false)(m), Root(t, true)(m);
    ConjugatePowers(t, m, k);
    ConjugatePowers(t, m, l);
    ConjugateSum(Pow(w, k), Pow(w, l), s[k][l]);
  }

  lemma ConjugateSum(a: Complex, b: Complex, s: Complex)
    ensures Add(Add(Add(Mul(Conj(a), s), Mul(a, s)), Add(Mul(Conj(b), s), Mul(b, s))), Scale(-4.0, s)) ==
            Scale(-(Gap(a) + Gap(b)), s)
  {
    ConjugatePair(a, s);
    ConjugatePair(b, s);
    GapScale(a.re, b.re, s.re);
    GapScale(a.re, b.re, s.im);
    hide Mul, Conj;
  }

  lemma ConjugatePair(a: Complex, s: Complex)
    ensures Add(Mul(Conj(a), s), Mul(a, s)) == Complex(2.0 * (a.re * s.re), 2.0 * (a.re * s.im))
  {
    assert (-a.im) * s.im == -(a.im * s.im) && (-a.im) * s.re == -(a.im * s.re);
  }

  lemma GapScale(x: real, y: real, r: real)
    ensures 2.0 * (x * r) + 2.0 * (y * r) + -4.0 * r == (-((2.0 - 2.0 * x) + (2.0 - 2.0 * y))) * r
  {
  }

  // ----- the solution satisfies the five-point equation -----

  /** A spectrum that is zero except for the mean mode. */
  function HeadPlane(c: Complex, n: nat): (r: Plane)
    ensures Rectangle(r, n, n)
    ensures forall k: nat, l: nat :: k < n && l < n ==> r[k][l] == if k == 0 && l == 0 then c else Zero
  {
    seq(n, k requires 0 <= k < n => seq(n, l requires 0 <= l < n => if k == 0 && l == 0 then c else Zero))
  }

  lemma {:induction false} EvalOfHead(x: seq<Complex>, a: Complex)
    requires forall k :: 1 <= k < |x| ==> x[k] == Zero
    ensures Eval(x, a) == if x == [] then Zero else x[0]
  {
    hide Mul, Add;
    if x == [] {
    } else {
      forall k | 1 <= k < |x[1..]| ensures x[1..][k] == Zero {
        assert x[1..][k] == x[k + 1];
      }
      EvalOfHead(x[1..], a);
      MulZero(a);
      AddZero(x[0]);
    }
  }

  lemma Eval2OfHead(c: Complex, n: nat, a: Complex, b: Complex)
    requires n >= 1
    ensures Eval2(HeadPlane(c, n), a, b) == c
  {
    hide Mul, Add, Eval;
    var z := HeadPlane(c, n);
    forall k: nat | k < n ensures EvalRows(z, b)[k] == if k == 0 then c else Zero {
      EvalOfHead(z[k], b);
    }
    EvalOfHead(EvalRows(z, b), a);
  }

  /** On every mode, five-point symbol times solution is minus h^2 times the data, the mean excepted. */
  lemma ModesCancel(hat: Plane, t: Trig, sinHalf: int -> real, m: nat, twoPi: real, h2: real, k: nat, l: nat)
    requires HalfAngles(t) && HalfSines(sinHalf, t, Exp2(m)) && k < Exp2(m) && l < Exp2(m)
    requires 0.0 < twoPi <= 7.0 && h2 * Area(Exp2(m)) == twoPi * twoPi && h2 > 0.0
    requires Rectangle(hat, Exp2(m), Exp2(m))
    ensures var n := Exp2(m);
            var s := SolutionHat(hat, sinHalf, h2, n);
            Add(FivePointHat(s, Root(t, false)(m), Root(t, true)(m), n)[k][l], Scale(h2, hat[k][l])) ==
            HeadPlane(Scale(h2, hat[0][0]), n)[k][l]
  {
    hide Gap, Symbol, HalfSines, HalfAngles, Area, Pow, Root, SolutionMode, FivePointHat, Scale;
    var n := Exp2(m);
    var s := SolutionHat(hat, sinHalf, h2, n);
    FivePointHatAt(s, t, m, n, k, l);
    SymbolFloorHitsMeanOnly(t, sinHalf, m, twoPi, h2, k, l);
    var gaps := Gap(Pow(Root(t, false)(m), k)) + Gap(Pow(Root(t, false)(m), l));
    SolveMode(hat[k][l], Symbol(sinHalf, n, h2, k, l), h2, gaps);
    hide Add;
    assert FivePointHat(s, Root(t, false)(m), Root(t, true)(m), n)[k][l] == Scale(-gaps, s[k][l]);
  }

  lemma SolveMode(a: Complex, symbol: real, h2: real, gaps: real)
    requires symbol * h2 == gaps
    ensures Add(Scale(-gaps, SolutionMode(a, symbol)), Scale(h2, a)) ==
            if symbol <= SYMBOL_FLOOR then Scale(h2, a) else Zero
  {
    if symbol > SYMBOL_FLOOR {
      CancelSymbol(symbol, h2, gaps, a.re);
      CancelSymbol(symbol, h2, gaps, a.im);
    } else {
      assert Scale(-gaps, Zero) == Zero;
    }
  }

  lemma CancelSymbol(symbol: real, h2: real, gaps: real, x: real)
    requires symbol > 0.0 && symbol * h2 == gaps
    ensures (-gaps) * (x / symbol) + h2 * x == 0.0
  {
    var y := x / symbol;
    assert y * symbol == x;
    assert (-gaps) * y == -(h2 * (y * symbol));
  }

  lemma SamplesSolve(hat: Plane, t: Trig, sinHalf: int -> real, m: nat, twoPi: real, h2: real, p: nat, q: nat)
    requires HalfAngles(t) && HalfSines(sinHalf, t, Exp2(m))
    requires 0.0 < twoPi <= 7.0 && h2 * Area(Exp2(m)) == twoPi * twoPi && h2 > 0.0
    requires Rectangle(hat, Exp2(m), Exp2(m))
    ensures var n := Exp2(m);
            var s := SolutionHat(hat, sinHalf, h2, n);
            Add(Sample(FivePointHat(s, Root(t, false)(m), Root(t, true)(m), n), Root(t, true)(m), p, q),
                Scale(h2, Sample(hat, Root(t, true)(m), p, q))) == Scale(h2, hat[0][0])
  {
    hide Gap, Symbol, HalfSines, HalfAngles, Area, Pow, Root, Scale, Add, FivePointHat, Eval2, SolutionHat;
    var n := Exp2(m);
    var s := SolutionHat(hat, sinHalf, h2, n);
    var a, b := Pow(Root(t, true)(m), p), Pow(Root(t, true)(m), q);
    var f := FivePointHat(s, Root(t, false)(m), Root(t, true)(m), n);
    var head := HeadPlane(Scale(h2, hat[0][0]), n);
    forall k: nat, l: nat | k < n && l < n ensures head[k][l] == Add(f[k][l], ScalePlane(h2, hat, n)[k][l]) {
      ModesCancel(hat, t, sinHalf, m, twoPi, h2, k, l);
    }
    Eval2Add(head, f, ScalePlane(h2, hat, n), n, a, b);
    Eval2Scale(h2, hat, n, a, b);
    Eval2OfHead(Scale(h2, hat[0][0]), n, a, b);
  }

  /** The mean mode of the spectrum is the sum of the field. */
  lemma MeanMode(f: Field, n: nat)
    requires Square(f, n)
    ensures Eval2(ToPlane(f, n), One, One) == Complex(Total(f), 0.0)
  {
    RowsAtOne(f, ToPlane(f, n), n);
  }

  lemma {:induction false} RowsAtOne(f: Field, z: Plane, width: nat)
    requires |z| == |f| && forall i :: 0 <= i < |f| ==> |f[i]| == |z[i]| == width
    requires forall i, j :: 0 <= i < |f| && 0 <= j < width ==> z[i][j] == Complex(f[i][j], 0.0)
    ensures Eval2(z, One, One) == Complex(Total(f), 0.0)
  {
    hide Mul;
    if f == [] {
    } else {
      RowAtOne(f[0], z[0]);
      RowsAtOne(f[1..], z[1..], width);
      EvalCons(EvalRows(z, One), One);
      assert EvalRows(z, One)[1..] == EvalRows(z[1..], One);
      MulOne(Eval2(z[1..], One, One));
    }
  }

  lemma {:induction false} RowAtOne(r: seq<real>, z: seq<Complex>)
    requires |r| == |z| && forall j :: 0 <= j < |r| ==> z[j] == Complex(r[j], 0.0)
    ensures Eval(z, One) == Complex(Sum(r), 0.0)
  {
    hide Mul;
    if r == [] {
    } else {
      RowAtOne(r[1..], z[1..]);
      MulOne(Eval(z[1..], One));
    }
  }

  ghost predicate Solvable(rhs: Field, t: Trig, sinHalf: int -> real, m: nat, twoPi: real, h2: real) {
    && Square(rhs, Exp2(m))
    && HalfAngles(t) && HalfSines(sinHalf, t, Exp2(m))
    && 0.0 < twoPi <= 7.0 && h2 > 0.0
    && h2 * Area(Exp2(m)) == twoPi * twoPi
  }

  lemma SolutionEntry(rhs: Field, t: Trig, sinHalf: int -> real, m: nat, h2: real, p: nat, q: nat)
    requires Square(rhs, Exp2(m)) && h2 > 0.0 && p < Exp2(m) && q < Exp2(m)
    ensures var n := Exp2(m);
            var hat := Transform2(ToPlane(rhs, n), t, false);
            var s := SolutionHat(hat, sinHalf, h2, n);
            var c := 1.0 / (n as real);
            At(PoissonSolution(rhs, t, sinHalf, h2), p, q) == Scale(c, Scale(c, Sample(s, Root(t, true)(m), p, q))).re
  {
    hide Transform2, SolutionHat, Eval2, Root, Scale;
    var n := Exp2(m);
    Log2OfExp2(m);
    var hat := Transform2(ToPlane(rhs, n), t, false);
    Transform2IsDoubleSum(SolutionHat(hat, sinHalf, h2, n), t, true, p, q);
  }

  /** The forward spectrum of the right-hand side: its samples and its mean mode. */
  lemma ForwardSpectrum(rhs: Field, t: Trig, m: nat, p: nat, q: nat)
    requires Square(rhs, Exp2(m)) && HalfAngles(t) && p < Exp2(m) && q < Exp2(m)
    ensures var n := Exp2(m);
            var hat := Transform2(ToPlane(rhs, n), t, false);
            && hat == Values2(ToPlane(rhs, n), Root(t, false)(m), n)
            && hat[0][0] == Complex(Total(rhs), 0.0)
            && Sample(hat, Root(t, true)(m), p, q) == Scale(Area(n), Complex(At(rhs, p, q), 0.0))
  {
    hide Transform2, Eval2, Root, Scale, HalfAngles, RootTower;
    var n := Exp2(m);
    Log2OfExp2(m);
    var z := ToPlane(rhs, n);
    var w, v := Root(t, false), Root(t, true);
    var hat, values := Transform2(z, t, false), Values2(z, w(m), n);
    forall k: nat, l: nat | k < n && l < n ensures hat[k][l] == values[k][l] {
      Transform2IsDoubleSum(z, t, false, k, l);
      ScaleOne(Eval2(z, Pow(w(m), k), Pow(w(m), l)));
    }
    PlaneEquality(hat, values, n);
    MeanMode(rhs, n);
    PowZero(w(m));
    RootsFormTowers(t, false);
    RootsFormTowers(t, true);
    Values2Invert(z, w, v, m, p, q);
  }

  lemma PlaneEquality(x: Plane, y: Plane, n: nat)
    requires Rectangle(x, n, n) && Rectangle(y, n, n)
    requires forall k: nat, l: nat :: k < n && l < n ==> x[k][l] == y[k][l]
    ensures x == y
  {
    forall k | 0 <= k < n ensures x[k] == y[k] {
      assert forall l: nat :: l < n ==> x[k][l] == y[k][l];
    }
  }

  /** Fourier inversion solves the periodic five-point Poisson equation exactly, up to the mean of the data. */
  lemma PoissonSolutionSolves(rhs: Field, t: Trig, sinHalf: int -> real, m: nat, twoPi: real, h2: real, p: nat, q: nat)
    requires Solvable(rhs, t, sinHalf, m, twoPi, h2) && p < Exp2(m) && q < Exp2(m)
    ensures var n := Exp2(m);
            var psi := PoissonSolution(rhs, t, sinHalf, h2);
            Area(n) > 0.0 && -(FivePoint(psi, n, p, q) / h2) == At(rhs, p, q) - Total(rhs) / Area(n)
  {
    hide At, Add, Total, Transform2, SolutionHat, Root, Scale, HalfAngles, HalfSines, PoissonSolution, Area,
         FivePointHat, Sample, Exp2, RootTower;
    var n := Exp2(m);
    AreaPositive(n);
    var hat := Transform2(ToPlane(rhs, n), t, false);
    var s := SolutionHat(hat, sinHalf, h2, n);
    var v := Root(t, true);
    SampleEquation(rhs, t, sinHalf, m, twoPi, h2, p, q);
    SolutionEntry(rhs, t, sinHalf, m, h2, p, q);
    SolutionEntry(rhs, t, sinHalf, m, h2, Next(p, n), q);
    SolutionEntry(rhs, t, sinHalf, m, h2, Prev(p, n), q);
    SolutionEntry(rhs, t, sinHalf, m, h2, p, Next(q, n));
    SolutionEntry(rhs, t, sinHalf, m, h2, p, Prev(q, n));
    AreaIsSquare(n);
    RescaleSamples(Sample(s, v(m), Next(p, n), q), Sample(s, v(m), Prev(p, n), q), Sample(s, v(m), p, Next(q, n)),
                   Sample(s, v(m), p, Prev(q, n)), Sample(s, v(m), p, q), n as real, h2, Area(n), Total(rhs),
                   At(rhs, p, q));
  }

  lemma StageRootsAreInverse(t: Trig, m: nat)
    requires HalfAngles(t)
    ensures InverseRoots(Root(t, false), Root(t, true), m)
  {
    hide Mul, RootTower, Root, HalfAngles;
    RootsFormTowers(t, false);
    RootsFormTowers(t, true);
  }

  lemma SampleEquation(rhs: Field, t: Trig, sinHalf: int -> real, m: nat, twoPi: real, h2: real, p: nat, q: nat)
    requires Solvable(rhs, t, sinHalf, m, twoPi, h2) && p < Exp2(m) && q < Exp2(m)
    ensures var n := Exp2(m);
            var s := SolutionHat(Transform2(ToPlane(rhs, n), t, false), sinHalf, h2, n);
            var v := Root(t, true)(m);
            Add(Add(Add(Add(Sample(s, v, Next(p, n), q), Sample(s, v, Prev(p, n), q)),
                        Add(Sample(s, v, p, Next(q, n)), Sample(s, v, p, Prev(q, n)))),
                    Scale(-4.0, Sample(s, v, p, q))),
                Scale(h2, Scale(Area(n), Complex(At(rhs, p, q), 0.0)))) == Scale(h2, Complex(Total(rhs), 0.0))
  {
    hide At, Add, Total, Transform2, SolutionHat, Root, Scale, HalfAngles, HalfSines, Area, FivePointHat, Sample, Exp2,
         RootTower;
    hide Next, Prev, Mul, InverseRoots;
    var n := Exp2(m);
    var hat := Transform2(ToPlane(rhs, n), t, false);
    var s := SolutionHat(hat, sinHalf, h2, n);
    StageRootsAreInverse(t, m);
    ForwardSpectrum(rhs, t, m, p, q);
    SamplesSolve(hat, t, sinHalf, m, twoPi, h2, p, q);
    FivePointOfSamples(s, Root(t, false), Root(t, true), m, p, q);
  }

  lemma AreaIsSquare(n: nat)
    ensures Area(n) == (n as real) * (n as real)
  {
  }

  lemma RescaleSamples(e: Complex, f: Complex, g: Complex, h: Complex, s: Complex,
                       n: real, h2: real, area: real, total: real, data: real)
    requires n > 0.0 && h2 > 0.0 && area == n * n
    requires Add(Add(Add(Add(e, f), Add(g, h)), Scale(-4.0, s)), Scale(h2, Scale(area, Complex(data, 0.0)))) ==
             Scale(h2, Complex(total, 0.0))
    ensures var c := 1.0 / n;
            var five := Scale(c, Scale(c, e)).re + Scale(c, Scale(c, f)).re + Scale(c, Scale(c, g)).re
                        + Scale(c, Scale(c, h)).re - 4.0 * Scale(c, Scale(c, s)).re;
            -(five / h2) == data - total / area
  {
    var c := 1.0 / n;
    var sum := e.re + f.re + g.re + h.re - 4.0 * s.re;
    RealPartOfEquation(e, f, g, h, s, h2, area, total, data);
    var c2 := c * c;
    FiveScaled(c, c2, e, f, g, h, s);
    InverseSquare(n, area, c2);
    assert area > 0.0;
    hide Scale, Add;
    var five := Scale(c, Scale(c, e)).re + Scale(c, Scale(c, f)).re + Scale(c, Scale(c, g)).re
                + Scale(c, Scale(c, h)).re - 4.0 * Scale(c, Scale(c, s)).re;
    DivideOut(five, c2, sum, h2, area, data, total);
  }

  lemma InverseSquare(n: real, area: real, c2: real)
    requires n > 0.0 && area == n * n && c2 == (1.0 / n) * (1.0 / n)
    ensures c2 * area == 1.0
  {
    var c := 1.0 / n;
    Quotient(1.0, n);
    assert c2 * area == (c * n) * (c * n);
  }

  lemma RealPartOfEquation(e: Complex, f: Complex, g: Complex, h: Complex, s: Complex,
                           h2: real, area: real, total: real, data: real)
    requires Add(Add(Add(Add(e, f), Add(g, h)), Scale(-4.0, s)), Scale(h2, Scale(area, Complex(data, 0.0)))) ==
             Scale(h2, Complex(total, 0.0))
    ensures e.re + f.re + g.re + h.re - 4.0 * s.re == h2 * total - h2 * (area * data)
  {
  }

  lemma FiveScaled(c: real, d: real, e: Complex, f: Complex, g: Complex, h: Complex, s: Complex)
    requires d == c * c
    ensures Scale(c, Scale(c, e)).re + Scale(c, Scale(c, f)).re + Scale(c, Scale(c, g)).re
            + Scale(c, Scale(c, h)).re - 4.0 * Scale(c, Scale(c, s)).re ==
            d * (e.re + f.re + g.re + h.re - 4.0 * s.re)
  {
    TwiceScaled(c, d, e);
    TwiceScaled(c, d, f);
    TwiceScaled(c, d, g);
    TwiceScaled(c, d, h);
    TwiceScaled(c, d, s);
    assert d * (e.re + f.re + g.re + h.re - 4.0 * s.re) == d * e.re + d * f.re + d * g.re + d * h.re - 4.0 * (d * s.re);
    hide Scale;
  }

  lemma TwiceScaled(c: real, d: real, e: Complex)
    requires d == c * c
    ensures Scale(c, Scale(c, e)).re == d * e.re
  {
  }

  lemma DivideOut(five: real, c2: real, sum: real, h2: real, area: real, data: real, total: real)
    requires h2 > 0.0 && c2 * area == 1.0 && area > 0.0
    requires five == c2 * sum && sum == h2 * total - h2 * (area * data)
    ensures -(five / h2) == data - total / area
  {
    var mean := total / area;
    Quotient(total, area);
    var w := h2 * (mean - data);
    assert sum == w * area by {
      assert w * area == h2 * (mean * area) - h2 * (area * data);
    }
    assert five == w by {
      assert c2 * (w * area) == w * (c2 * area);
    }
    assert five / h2 == mean - data by {
      Quotient(five, h2);
      CancelFactor(h2, five / h2, mean - data);
    }
  }

  lemma Quotient(x: real, y: real)
    requires y != 0.0
    ensures (x / y) * y == x
  {
  }

  /** The solution has zero mean. */
  lemma PoissonSolutionHasZeroSum(rhs: Field, t: Trig, sinHalf: int -> real, m: nat, twoPi: real, h2: real)
    requires Solvable(rhs, t, sinHalf, m, twoPi, h2)
    ensures Total(PoissonSolution(rhs, t, sinHalf, h2)) == 0.0
  {
    hide Transform2, Root, Scale, HalfAngles, HalfSines, Area, Eval2, Mul, Total, Symbol;
    var n := Exp2(m);
    Log2OfExp2(m);
    var hat := Transform2(ToPlane(rhs, n), t, false);
    var s := SolutionHat(hat, sinHalf, h2, n);
    var w, v := Root(t, false), Root(t, true);
    var z := Transform2(s, t, true);
    var psi := PoissonSolution(rhs, t, sinHalf, h2);
    SymbolFloorHitsMeanOnly(t, sinHalf, m, twoPi, h2, 0, 0);
    assert s[0][0] == Zero;
    assert IsPowerOfTwo(n);
    Transform2RoundTrip(s, t, true);
    Transform2IsDoubleSum(z, t, false, 0, 0);
    PowZero(w(m));
    ScaleOne(Eval2(z, One, One));
    assert Eval2(z, One, One) == Zero;
    RealPartOfSum(psi, z, n);
  }

  lemma RealPartOfSum(f: Field, z: Plane, n: nat)
    requires Square(f, n) && Rectangle(z, n, n)
    requires forall i: nat, j: nat :: i < n && j < n ==> At(f, i, j) == z[i][j].re
    ensures Eval2(z, One, One).re == Total(f)
  {
    forall i, j | 0 <= i < n && 0 <= j < n ensures f[i][j] == z[i][j].re {
      assert At(f, i, j) == z[i][j].re;
    }
    RealRows(f, z, n);
  }

  lemma {:induction false} RealRows(f: Field, z: Plane, width: nat)
    requires |z| == |f| && forall i :: 0 <= i < |f| ==> |f[i]| == |z[i]| == width
    requires forall i, j :: 0 <= i < |f| && 0 <= j < width ==> f[i][j] == z[i][j].re
    ensures Eval2(z, One, One).re == Total(f)
  {
    hide Mul;
    if f == [] {
    } else {
      RealRow(f[0], z[0]);
      RealRows(f[1..], z[1..], width);
      EvalCons(EvalRows(z, One), One);
      assert EvalRows(z, One)[1..] == EvalRows(z[1..], One);
      MulOne(Eval2(z[1..], One, One));
    }
  }

  lemma {:induction false} RealRow(r: seq<real>, z: seq<Complex>)
    requires |r| == |z| && forall j :: 0 <= j < |r| ==> r[j] == z[j].re
    ensures Eval(z, One).re == Sum(r)
  {
    hide Mul;
    if r == [] {
    } else {
      RealRow(r[1..], z[1..]);
      MulOne(Eval(z[1..], One));
    }
  }

  // ----- the method -----

  function SpacingSquared(twoPi: real, n: nat): real
    requires n >= 1
  {
    (twoPi / (n as real)) * (twoPi / (n as real))
  }

  lemma SpacingSquaredArea(twoPi: real, n: nat)
    requires n >= 1 && twoPi > 0.0
    ensures SpacingSquared(twoPi, n) > 0.0 && SpacingSquared(twoPi, n) * Area(n) == twoPi * twoPi
  {
    var h := twoPi / (n as real);
    assert h > 0.0 && h * (n as real) == twoPi;
    AreaIsSquare(n);
    assert (h * h) * ((n as real) * (n as real)) == (h * (n as real)) * (h * (n as real));
  }

  /** The field the solver returns inverts minus the five-point Laplacian up to the mean, with zero sum. */
  ghost predicate InvertsLaplacian(psi: Field, rhs: Field, h2: real, n: nat)
    requires h2 > 0.0
  {
    && n >= 1 && Area(n) > 0.0
    && Square(psi, n)
    && Total(psi) == 0.0
    && forall i: nat, j: nat :: i < n && j < n ==>
       -At(Laplacian(psi, h2, n), i, j) == At(rhs, i, j) - Total(rhs) / Area(n)
  }

  /** The source's solver: both loops over modes write the solution spectrum entry by entry. */
  method SolveMinusLaplacian(rhs: Field, twoPi: real, t: Trig, sinHalf: int -> real) returns (r: Result<Field, string>)
    requires HalfAngles(t) && 0.0 < twoPi <= 7.0
    requires |rhs| >= 1 ==> HalfSines(sinHalf, t, |rhs|)
    ensures r.Success? <==> |rhs| >= 8 && IsPowerOfTwo(|rhs|) && Square(rhs, |rhs|)
    ensures r.Success? ==>
            SpacingSquared(twoPi, |rhs|) > 0.0 && InvertsLaplacian(r.value, rhs, SpacingSquared(twoPi, |rhs|), |rhs|)
  {
    hide Transform2, HalfAngles, HalfSines, Symbol, SpacingSquared, Area, InvertsLaplacian;
    var n := |rhs|;
    if n >= 1 { AndPredecessorIsPowerOfTwoTest(n); }
    if !Radix2(n) {
      return Failure("G3 requires radix-2 grid_size >= 8");
    }
    if exists i :: 0 <= i < n && |rhs[i]| != n {
      return Failure("G11 fields must be square");
    }
    var rhsHat := Fft2d(ToPlane(rhs, n), t, false);
    var hat := rhsHat.value;
    var h2 := SpacingSquared(twoPi, n);
    SpacingSquaredArea(twoPi, n);
    var solutionHat := DivideModes(hat, sinHalf, h2, n);
    var solution := Fft2d(solutionHat, t, true);
    var psi := RealParts(solution.value, n);
    assert psi == PoissonSolution(rhs, t, sinHalf, h2);
    ghost var m: nat :| n == Exp2(m);
    PoissonInverts(rhs, psi, t, sinHalf, m, twoPi, h2);
    r := Success(psi);
  }

  method DivideModes(hat: Plane, sinHalf: int -> real, h2: real, n: nat) returns (solutionHat: Plane)
    requires Rectangle(hat, n, n) && h2 > 0.0
    ensures solutionHat == SolutionHat(hat, sinHalf, h2, n)
  {
    hide Symbol;
    solutionHat := seq(n, _ => seq(n, _ => Zero));
    var target := SolutionHat(hat, sinHalf, h2, n);
    for i := 0 to n
      invariant Rectangle(solutionHat, n, n)
      invariant forall k: nat, l: nat :: k < i && l < n ==> solutionHat[k][l] == target[k][l]
    {
      for j := 0 to n
        invariant Rectangle(solutionHat, n, n)
        invariant forall k: nat, l: nat :: k < i && l < n ==> solutionHat[k][l] == target[k][l]
        invariant forall l: nat :: l < j ==> solutionHat[i][l] == target[i][l]
      {
        solutionHat := solutionHat[i := solutionHat[i][j := SolutionMode(hat[i][j], Symbol(sinHalf, n, h2, i, j))]];
      }
    }
    PlaneEquality(solutionHat, target, n);
  }

  lemma PoissonInverts(rhs: Field, psi: Field, t: Trig, sinHalf: int -> real, m: nat, twoPi: real, h2: real)
    requires Solvable(rhs, t, sinHalf, m, twoPi, h2) && psi == PoissonSolution(rhs, t, sinHalf, h2)
    ensures InvertsLaplacian(psi, rhs, h2, Exp2(m))
  {
    hide PoissonSolution, HalfAngles, HalfSines, Area, FivePoint;
    var n := Exp2(m);
    AreaPositive(n);
    PoissonSolutionHasZeroSum(rhs, t, sinHalf, m, twoPi, h2);
    SolutionIsSquare(rhs, t, sinHalf, h2);
    forall i: nat, j: nat | i < n && j < n
      ensures -At(Laplacian(psi, h2, n), i, j) == At(rhs, i, j) - Total(rhs) / Area(n)
    {
      PoissonSolutionSolves(rhs, t, sinHalf, m, twoPi, h2, i, j);
    }
  }

  lemma SolutionIsSquare(rhs: Field, t: Trig, sinHalf: int -> real, h2: real)
    requires |rhs| >= 1 && Square(rhs, |rhs|) && h2 > 0.0
    ensures Square(PoissonSolution(rhs, t, sinHalf, h2), |rhs|)
  {
  }
}
