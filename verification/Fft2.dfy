/** The two-dimensional transform: rows, then columns; its double-sum form and its inversion. */
module Fft2 {
  import opened Bits
  import opened ComplexNumbers
  import opened Dft
  import opened Fft
  import opened Wrappers

  type Plane = seq<seq<Complex>>

  predicate Rectangle(z: Plane, rows: nat, columns: nat) {
    |z| == rows && forall i :: 0 <= i < rows ==> |z[i]| == columns
  }

  /** Each row evaluated at b. */
  function EvalRows(z: Plane, b: Complex): (r: seq<Complex>)
    ensures |r| == |z|
    ensures forall i :: 0 <= i < |z| ==> r[i] == Eval(z[i], b)
  {
    seq(|z|, i requires 0 <= i < |z| => Eval(z[i], b))
  }

  /** The double sum of z[i][j] * a^i * b^j. */
  function Eval2(z: Plane, a: Complex, b: Complex): Complex {
    Eval(EvalRows(z, b), a)
  }

  function Column(z: Plane, rows: nat, columns: nat, j: nat): (r: seq<Complex>)
    requires Rectangle(z, rows, columns) && j < columns
    ensures |r| == rows
    ensures forall i :: 0 <= i < rows ==> r[i] == z[i][j]
  {
    seq(rows, i requires 0 <= i < rows => z[i][j])
  }

  function Transpose(z: Plane, rows: nat, columns: nat): (r: Plane)
    requires Rectangle(z, rows, columns)
    ensures Rectangle(r, columns, rows)
    ensures forall j :: 0 <= j < columns ==> r[j] == Column(z, rows, columns, j)
  {
    seq(columns, j requires 0 <= j < columns => Column(z, rows, columns, j))
  }

  /** The two summations may be exchanged. */
  lemma {:induction false} Fubini(z: Plane, rows: nat, columns: nat, a: Complex, b: Complex)
    requires Rectangle(z, rows, columns)
    ensures Eval2(z, a, b) == Eval2(Transpose(z, rows, columns), b, a)
    decreases rows
  {
    hide Mul, Add, Eval;
    var t := Transpose(z, rows, columns);
    if rows == 0 {
      forall j | 0 <= j < columns ensures EvalRows(t, a)[j] == MulSeq(Zero, Ones(columns))[j] {
        assert t[j] == [];
        EvalEmpty(a);
        MulZero(One);
      }
      assert EvalRows(t, a) == MulSeq(Zero, Ones(columns));
      EvalMulSeq(Zero, Ones(columns), b);
      MulZero(Eval(Ones(columns), b));
      assert EvalRows(z, b) == [];
      EvalEmpty(a);
    } else {
      var rest := z[1..];
      Fubini(rest, rows - 1, columns, a, b);
      var rt := Transpose(rest, rows - 1, columns);
      forall j | 0 <= j < columns ensures EvalRows(t, a)[j] == AddSeq(z[0], MulSeq(a, EvalRows(rt, a)))[j] {
        EvalCons(t[j], a);
        assert t[j][1..] == rt[j];
      }
      assert EvalRows(t, a) == AddSeq(z[0], MulSeq(a, EvalRows(rt, a)));
      EvalAddSeq(z[0], MulSeq(a, EvalRows(rt, a)), b);
      EvalMulSeq(a, EvalRows(rt, a), b);
      EvalCons(EvalRows(z, b), a);
      assert EvalRows(z, b)[1..] == EvalRows(rest, b);
    }
  }

  lemma EvalEmpty(a: Complex)
    ensures Eval([], a) == Zero
  {
  }

  lemma EvalCons(x: seq<Complex>, a: Complex)
    requires x != []
    ensures Eval(x, a) == Add(x[0], Mul(a, Eval(x[1..], a)))
  {
  }

  // ----- inversion of the double sum -----

  /** The values of a polynomial at w^0, ..., w^(n-1). */
  function Values(x: seq<Complex>, w: Complex, n: nat): (r: seq<Complex>)
    ensures |r| == n
    ensures forall k: nat :: k < n ==> r[k] == Eval(x, Pow(w, k))
  {
    seq(n, k requires 0 <= k < n => Eval(x, Pow(w, k)))
  }

  function Values2(z: Plane, w: Complex, n: nat): (r: Plane)
    ensures Rectangle(r, n, n)
    ensures forall k: nat, l: nat :: k < n && l < n ==> r[k][l] == Eval2(z, Pow(w, k), Pow(w, l))
  {
    seq(n, k requires 0 <= k < n => seq(n, l requires 0 <= l < n => Eval2(z, Pow(w, k), Pow(w, l))))
  }

  ghost predicate InverseRoots(w: nat -> Complex, v: nat -> Complex, m: nat) {
    RootTower(w) && RootTower(v) && Mul(w(m), v(m)) == One
  }

  lemma ValuesInvert(x: seq<Complex>, w: nat -> Complex, v: nat -> Complex, m: nat, t: nat)
    requires InverseRoots(w, v, m) && |x| == Exp2(m) && t < Exp2(m)
    ensures Eval(Values(x, w(m), Exp2(m)), Pow(v(m), t)) == Scale(Exp2(m) as real, x[t])
  {
    hide Mul, Eval, Pow, Exp2, RootTower;
    var n := Exp2(m);
    forall k: nat | k < n ensures Values(x, w(m), n)[k] == Spectrum(x, w(m), 0, n)[k] {
      assert k * 0 == 0;
      PowZero(w(m));
      MulOne(Eval(x, Pow(w(m), k)));
    }
    assert Values(x, w(m), n) == Spectrum(x, w(m), 0, n);
    SpectrumInverts(x, w, v, m, 0, t);
  }

  lemma PowZero(z: Complex)
    ensures Pow(z, 0) == One
  {
  }

  /** One row of the 2-D spectrum, evaluated at v^q, is n times the spectrum of column q. */
  lemma RowOfSpectrum(f: Plane, w: nat -> Complex, v: nat -> Complex, m: nat, k: nat, q: nat)
    requires InverseRoots(w, v, m) && Rectangle(f, Exp2(m), Exp2(m)) && k < Exp2(m) && q < Exp2(m)
    ensures var n := Exp2(m);
            Eval(Values2(f, w(m), n)[k], Pow(v(m), q)) == Scale(n as real, Eval(Column(f, n, n, q), Pow(w(m), k)))
  {
    hide Mul, Add, Eval, Pow, Exp2, InverseRoots;
    var n := Exp2(m);
    var b := Pow(v(m), q);
    var rowSpectra: Plane := seq(n, i requires 0 <= i < n => Values(f[i], w(m), n));
    var t := Transpose(rowSpectra, n, n);
    var row := Values2(f, w(m), n)[k];
    forall l: nat | l < n ensures row[l] == EvalRows(t, Pow(w(m), k))[l] {
      assert EvalRows(f, Pow(w(m), l)) == t[l];
    }
    assert row == EvalRows(t, Pow(w(m), k));
    Fubini(rowSpectra, n, n, Pow(w(m), k), b);
    var column := Column(f, n, n, q);
    forall i | 0 <= i < n ensures EvalRows(rowSpectra, b)[i] == MulSeq(Complex(n as real, 0.0), column)[i] {
      ValuesInvert(f[i], w, v, m, q);
      MulReal(n as real, column[i]);
    }
    assert EvalRows(rowSpectra, b) == MulSeq(Complex(n as real, 0.0), column);
    EvalMulSeq(Complex(n as real, 0.0), column, Pow(w(m), k));
    MulReal(n as real, Eval(column, Pow(w(m), k)));
  }

  /** Two-dimensional inversion: evaluating the double spectrum at (v^p, v^q) gives n^2 times f[p][q]. */
  lemma Values2Invert(f: Plane, w: nat -> Complex, v: nat -> Complex, m: nat, p: nat, q: nat)
    requires InverseRoots(w, v, m) && Rectangle(f, Exp2(m), Exp2(m)) && p < Exp2(m) && q < Exp2(m)
    ensures var n := Exp2(m);
            Eval2(Values2(f, w(m), n), Pow(v(m), p), Pow(v(m), q)) == Scale((n * n) as real, f[p][q])
  {
    hide Mul, Add, Eval, Pow, Exp2, InverseRoots, Scale;
    var n := Exp2(m);
    var hat := Values2(f, w(m), n);
    var column := Column(f, n, n, q);
    var c := Complex(n as real, 0.0);
    forall k: nat | k < n ensures EvalRows(hat, Pow(v(m), q))[k] == MulSeq(c, Values(column, w(m), n))[k] {
      RowOfSpectrum(f, w, v, m, k, q);
      MulReal(n as real, Eval(column, Pow(w(m), k)));
    }
    assert EvalRows(hat, Pow(v(m), q)) == MulSeq(c, Values(column, w(m), n));
    EvalMulSeq(c, Values(column, w(m), n), Pow(v(m), p));
    ValuesInvert(column, w, v, m, p);
    MulReal(n as real, Scale(n as real, column[p]));
    ScaleScale(n, column[p]);
  }

  lemma ScaleScale(n: nat, a: Complex)
    ensures Scale(n as real, Scale(n as real, a)) == Scale((n * n) as real, a)
  {
    var r := n as real;
    assert (n * n) as real == r * r;
    assert r * (r * a.re) == (r * r) * a.re;
    assert r * (r * a.im) == (r * r) * a.im;
  }

  // ----- the transform and the method -----

  /** Rows, then columns, each by the one-dimensional transform. */
  function Transform2(f: Plane, t: Trig, inverse: bool): (r: Plane)
    requires |f| >= 1 && Rectangle(f, |f|, |f|)
    ensures Rectangle(r, |f|, |f|)
  {
    var n := |f|;
    var rows: Plane := seq(n, i requires 0 <= i < n => Transform(f[i], t, inverse));
    Transpose(seq(n, l requires 0 <= l < n => Transform(Column(rows, n, n, l), t, inverse)), n, n)
  }

  /** The two passes compute the double Fourier sum, scaled by 1/n^2 for the inverse. */
  lemma Transform2IsDoubleSum(f: Plane, t: Trig, inverse: bool, k: nat, l: nat)
    requires |f| >= 1 && Rectangle(f, |f|, |f|) && k < |f| && l < |f|
    ensures var w := Root(t, inverse)(Log2(|f|));
            var s := if inverse then 1.0 / (|f| as real) else 1.0;
            Transform2(f, t, inverse)[k][l] == Scale(s, Scale(s, Eval2(f, Pow(w, k), Pow(w, l))))
  {
    hide Mul, Add, Eval, Pow, Transform, Root, Scale, Log2;
    var n := |f|;
    var w := Root(t, inverse)(Log2(n));
    var s := if inverse then 1.0 / (n as real) else 1.0;
    var rows: Plane := seq(n, i requires 0 <= i < n => Transform(f[i], t, inverse));
    var column := Column(rows, n, n, l);
    assert Transform2(f, t, inverse)[k][l] == Transform(column, t, inverse)[k];
    TransformIsEval(column, t, inverse, k);
    var sums := EvalRows(f, Pow(w, l));
    forall i | 0 <= i < n ensures column[i] == MulSeq(Complex(s, 0.0), sums)[i] {
      TransformIsEval(f[i], t, inverse, l);
      MulReal(s, sums[i]);
    }
    assert column == MulSeq(Complex(s, 0.0), sums);
    EvalMulSeq(Complex(s, 0.0), sums, Pow(w, k));
    MulReal(s, Eval(sums, Pow(w, k)));
  }

  method Overwritten(plane: Plane, n: nat, column: nat, values: seq<Complex>) returns (result: Plane)
    requires Rectangle(plane, n, n) && column < n && |values| == n
    ensures Rectangle(result, n, n)
    ensures forall k, l :: 0 <= k < n && 0 <= l < n ==> result[k][l] == if l == column then values[k] else plane[k][l]
  {
    result := plane;
    for row := 0 to n
      invariant Rectangle(result, n, n)
      invariant forall k, l :: 0 <= k < n && 0 <= l < n ==>
                result[k][l] == if l == column && k < row then values[k] else plane[k][l]
    {
      result := result[row := result[row][column := values[row]]];
    }
  }

  /** The source's row pass and column-by-column overwrite compute the two-dimensional transform. */
  method Fft2d(field: Plane, t: Trig, inverse: bool) returns (r: Result<Plane, string>)
    requires HalfAngles(t)
    ensures r.Success? <==> |field| >= 8 && IsPowerOfTwo(|field|) && Rectangle(field, |field|, |field|)
    ensures r.Success? ==> r.value == Transform2(field, t, inverse)
  {
    hide Transform, HalfAngles;
    var n := |field|;
    if n >= 1 { AndPredecessorIsPowerOfTwoTest(n); }
    if !Radix2(n) {
      return Failure("G3 requires radix-2 grid_size >= 8");
    }
    if !Rectangle(field, n, n) {
      return Failure("G3 fields must be square");
    }
    var rows: Plane := [];
    for i := 0 to n
      invariant Rectangle(rows, i, n)
      invariant forall k :: 0 <= k < i ==> rows[k] == Transform(field[k], t, inverse)
    {
      var row := Fft1d(field[i], t, inverse);
      rows := rows + [row.value];
    }
    assert rows == seq(n, i requires 0 <= i < n => Transform(field[i], t, inverse));
    var result: Plane := seq(n, _ => seq(n, _ => Zero));
    for column := 0 to n
      invariant Rectangle(result, n, n)
      invariant forall k, l :: 0 <= k < n && 0 <= l < column ==>
                result[k][l] == Transform(Column(rows, n, n, l), t, inverse)[k]
    {
      var transformed := Fft1d(seq(n, row requires 0 <= row < n => rows[row][column]), t, inverse);
      assert seq(n, row requires 0 <= row < n => rows[row][column]) == Column(rows, n, n, column);
      result := Overwritten(result, n, column, transformed.value);
    }
    var expected := Transform2(field, t, inverse);
    forall k | 0 <= k < n ensures result[k] == expected[k] {
      assert forall l :: 0 <= l < n ==> result[k][l] == expected[k][l];
    }
    assert result == expected;
    r := Success(result);
  }

  /** The two-dimensional inverse transform undoes the forward one, and conversely. */
  lemma Transform2RoundTrip(f: Plane, t: Trig, inverse: bool)
    requires HalfAngles(t) && |f| >= 1 && IsPowerOfTwo(|f|) && Rectangle(f, |f|, |f|)
    ensures Transform2(Transform2(f, t, inverse), t, !inverse) == f
  {
    var n := |f|;
    var once := Transform2(f, t, inverse);
    var twice := Transform2(once, t, !inverse);
    forall p: nat, q: nat | p < n && q < n ensures twice[p][q] == f[p][q] {
      RoundTripAt(f, t, inverse, p, q);
    }
    forall p | 0 <= p < n ensures twice[p] == f[p] {
      assert forall q: nat :: q < n ==> twice[p][q] == f[p][q];
    }
  }

  lemma RoundTripAt(f: Plane, t: Trig, inverse: bool, p: nat, q: nat)
    requires HalfAngles(t) && |f| >= 1 && IsPowerOfTwo(|f|) && Rectangle(f, |f|, |f|) && p < |f| && q < |f|
    ensures Transform2(Transform2(f, t, inverse), t, !inverse)[p][q] == f[p][q]
  {
    hide Mul, Add, Eval, Pow, Transform2, HalfAngles, Exp2, Scale;
    var m: nat :| |f| == Exp2(m);
    Log2OfExp2(m);
    RootsFormTowers(t, inverse);
    RootsFormTowers(t, !inverse);
    var w, v := Root(t, inverse), Root(t, !inverse);
    var n := |f|;
    var s := if inverse then 1.0 / (n as real) else 1.0;
    var s' := if !inverse then 1.0 / (n as real) else 1.0;
    var once := Transform2(f, t, inverse);
    var hat := Values2(f, w(m), n);
    forall k: nat, l: nat | k < n && l < n ensures once[k][l] == Scale(s, Scale(s, hat[k][l])) {
      Transform2IsDoubleSum(f, t, inverse, k, l);
    }
    Transform2IsDoubleSum(once, t, !inverse, p, q);
    EvalScaled(once, hat, n, s, Pow(v(m), p), Pow(v(m), q));
    Values2Invert(f, w, v, m, p, q);
    ScalesCancel(n, s, s', f[p][q]);
  }

  lemma EvalScaled(z: Plane, y: Plane, n: nat, s: real, a: Complex, b: Complex)
    requires Rectangle(z, n, n) && Rectangle(y, n, n)
    requires forall k: nat, l: nat :: k < n && l < n ==> z[k][l] == Scale(s, Scale(s, y[k][l]))
    ensures Eval2(z, a, b) == Scale(s, Scale(s, Eval2(y, a, b)))
  {
    hide Mul, Add, Eval, Scale;
    var c := Complex(s, 0.0);
    forall k: nat | k < n ensures EvalRows(z, b)[k] == MulSeq(c, MulSeq(c, EvalRows(y, b)))[k] {
      forall l: nat | l < n ensures z[k][l] == MulSeq(c, MulSeq(c, y[k]))[l] {
        MulReal(s, y[k][l]);
        MulReal(s, Scale(s, y[k][l]));
      }
      assert z[k] == MulSeq(c, MulSeq(c, y[k]));
      EvalMulSeq(c, MulSeq(c, y[k]), b);
      EvalMulSeq(c, y[k], b);
    }
    assert EvalRows(z, b) == MulSeq(c, MulSeq(c, EvalRows(y, b)));
    EvalMulSeq(c, MulSeq(c, EvalRows(y, b)), a);
    EvalMulSeq(c, EvalRows(y, b), a);
    MulReal(s, Eval2(y, a, b));
    MulReal(s, Scale(s, Eval2(y, a, b)));
  }

  lemma ScalesCancel(n: nat, s: real, s': real, a: Complex)
    requires n >= 1
    requires (s == 1.0 / (n as real) && s' == 1.0) || (s == 1.0 && s' == 1.0 / (n as real))
    ensures Scale(s', Scale(s', Scale(s, Scale(s, Scale((n * n) as real, a))))) == a
  {
    var r := n as real;
    var q := 1.0 / r;
    var big := Scale((n * n) as real, a);
    UndoScale(n, a);
    ScaleOne(big);
    ScaleOne(a);
    if s' == 1.0 && s == q {
      assert Scale(s, Scale(s, big)) == a;
    } else {
      assert Scale(s, Scale(s, big)) == big;
    }
  }

  lemma UndoScale(n: nat, a: Complex)
    requires n >= 1
    ensures var q := 1.0 / (n as real); Scale(q, Scale(q, Scale((n * n) as real, a))) == a
  {
    var r := n as real;
    assert (n * n) as real == r * r;
    assert r * (1.0 / r) == 1.0;
    CancelSquare(r, 1.0 / r, (n * n) as real, a.re);
    CancelSquare(r, 1.0 / r, (n * n) as real, a.im);
  }

  lemma CancelSquare(r: real, q: real, square: real, x: real)
    requires r * q == 1.0 && square == r * r
    ensures q * (q * (square * x)) == x
  {
    var unit := (q * q) * square;
    assert unit == (r * q) * (r * q);
    assert unit == 1.0;
    assert q * (q * (square * x)) == unit * x;
  }

  // ----- pure plane waves -----

  /** The samples z^(k0 * i) * z^(l0 * j). */
  function PlaneWave(z: Complex, k0: nat, l0: nat, n: nat): (r: Plane)
    ensures Rectangle(r, n, n)
  {
    seq(n, (i: nat) => MulSeq(Pow(z, k0 * i), Wave(z, l0, n)))
  }

  /** A plane wave is found at its own pair of indices and nowhere else, with the turning senses of the one-dimensional
      transforms. */
  lemma PurePlaneWave(t: Trig, m: nat, k0: nat, l0: nat, k: nat, l: nat)
    requires HalfAngles(t) && k0 < Exp2(m) && l0 < Exp2(m) && k < Exp2(m) && l < Exp2(m)
    ensures var n := Exp2(m);
            && Transform2(PlaneWave(Complex(t.cosine(m), t.sine(m)), k0, l0, n), t, false)[k][l] ==
               (if k == k0 && l == l0 then Complex((n * n) as real, 0.0) else Complex(0.0, 0.0))
            && Transform2(PlaneWave(Complex(t.cosine(m), -t.sine(m)), k0, l0, n), t, true)[k][l] ==
               (if k == k0 && l == l0 then Complex(1.0, 0.0) else Complex(0.0, 0.0))
  {
    hide Transform2, Transform, Wave, PlaneWave, HalfAngles, Exp2, Mul;
    PlaneWaveAt(Complex(t.cosine(m), t.sine(m)), t, false, m, k0, l0, k, l);
    PlaneWaveAt(Complex(t.cosine(m), -t.sine(m)), t, true, m, k0, l0, k, l);
    PureWave(t, m, k0, k);
    PureWave(t, m, l0, l);
    PeakProducts(Exp2(m));
  }

  lemma PeakProducts(n: nat)
    ensures var peak := Complex(n as real, 0.0);
            && Mul(peak, peak) == Complex((n * n) as real, 0.0) && Mul(peak, Zero) == Zero == Mul(Zero, peak)
            && Mul(One, One) == One && Mul(One, Zero) == Zero == Mul(Zero, One) && Mul(Zero, Zero) == Zero
  {
    hide Mul;
    assert (n * n) as real == (n as real) * (n as real);
    MulReal(n as real, Complex(n as real, 0.0));
    assert (n as real) * 0.0 == 0.0;
    MulZero(Complex(n as real, 0.0));
    MulZero(One);
    MulZero(Zero);
    MulOne(One);
  }

  /** The transform of a product wave is the product of the transforms of its factors. */
  lemma PlaneWaveAt(z: Complex, t: Trig, inverse: bool, m: nat, k0: nat, l0: nat, k: nat, l: nat)
    requires k < Exp2(m) && l < Exp2(m)
    ensures var n := Exp2(m);
            Transform2(PlaneWave(z, k0, l0, n), t, inverse)[k][l] ==
            Mul(Transform(Wave(z, l0, n), t, inverse)[l], Transform(Wave(z, k0, n), t, inverse)[k])
  {
    hide Mul, Add, Eval, Pow, Transform, Transform2, Root, Scale, Log2, Exp2;
    var n := Exp2(m);
    var w := Root(t, inverse)(Log2(n));
    var s := if inverse then 1.0 / (n as real) else 1.0;
    var f, rowWave, columnWave := PlaneWave(z, k0, l0, n), Wave(z, l0, n), Wave(z, k0, n);
    var e := Eval(rowWave, Pow(w, l));
    Transform2IsDoubleSum(f, t, inverse, k, l);
    forall i: nat | i < n ensures EvalRows(f, Pow(w, l))[i] == MulSeq(e, columnWave)[i] {
      EvalMulSeq(Pow(z, k0 * i), rowWave, Pow(w, l));
      MulComm(Pow(z, k0 * i), e);
    }
    assert EvalRows(f, Pow(w, l)) == MulSeq(e, columnWave);
    EvalMulSeq(e, columnWave, Pow(w, k));
    TransformIsEval(rowWave, t, inverse, l);
    TransformIsEval(columnWave, t, inverse, k);
    ScaledProduct(s, e, Eval(columnWave, Pow(w, k)));
  }

  lemma ScaledProduct(s: real, a: Complex, b: Complex)
    ensures Scale(s, Scale(s, Mul(a, b))) == Mul(Scale(s, a), Scale(s, b))
  {
    MulReal(s, a);
    MulReal(s, b);
    MulReal(s, Mul(a, b));
    MulReal(s, Scale(s, Mul(a, b)));
    var c := Complex(s, 0.0);
    MulSwap(Mul(c, a), c, b);
    MulAssoc(c, a, b);
    hide Mul, Scale;
  }
}
