/** States of the discrete MHD equations: the variance of a field is non-negative, centred differences of a
    potential are solenoidal, and every aligned state is an exact steady state of the ideal dynamics. */
module MhdStates {
  import opened Arakawa
  import opened Grid
  import opened RealArith
  import opened Mhd
  import opened MhdRun
  import opened Poisson

  // ----- the variance of a field -----

  /** Removing the mean can only lower the square sum: sum f^2 - mean * sum f is a square sum itself. */
  lemma VarianceIsNonNegative(f: Field, n: nat)
    requires n >= 1 && Square(f, n)
    ensures Area(n) > 0.0 && Dot(f, f, n) - Total(f) / Area(n) * Total(f) >= 0.0
  {
    hide Dot, Total, Combine, Area, OnesField, Square;
    AreaPositive(n);
    var mean := Total(f) / Area(n);
    var ones := OnesField(n);
    DotCombineSelf(1.0, f, -mean, ones, n);
    DotOnes(f, n);
    OnesIsSquare(n);
    DotOnes(ones, n);
    TotalOfOnes(n);
    DotPositive(Combine(1.0, f, -mean, ones, n), n);
    Quotient(Total(f), Area(n));
    VarianceAlgebra(Dot(f, f, n), Total(f), Area(n), mean);
  }

  lemma OnesIsSquare(n: nat)
    ensures Square(OnesField(n), n)
  {
  }

  lemma VarianceAlgebra(ff: real, total: real, area: real, mean: real)
    requires mean * area == total && QuadraticForm(1.0, -mean, ff, total, area) >= 0.0
    ensures ff - mean * total >= 0.0
  {
    var mt := Product(mean, total);
    assert Product(mean, Product(mean, area)) == mt;
    assert QuadraticForm(1.0, -mean, ff, total, area) == ff - 2.0 * mt + Product(mean, Product(mean, area));
  }

  lemma TotalOfOnes(n: nat)
    ensures Total(OnesField(n)) == Area(n)
  {
    hide Total;
    OnesRows(OnesField(n), n);
    AreaIsSquare(n);
  }

  lemma {:induction false} OnesRows(f: Field, width: nat)
    requires forall i :: 0 <= i < |f| ==> |f[i]| == width && forall j :: 0 <= j < width ==> f[i][j] == 1.0
    ensures Total(f) == (|f| as real) * (width as real)
  {
    if f == [] {
    } else {
      OnesRow(f[0]);
      OnesRows(f[1..], width);
      assert (|f| as real) * (width as real) == (width as real) + (|f[1..]| as real) * (width as real);
    }
  }

  lemma {:induction false} OnesRow(s: seq<real>)
    requires forall j :: 0 <= j < |s| ==> s[j] == 1.0
    ensures Sum(s) == |s| as real
  {
    if s == [] {
    } else {
      OnesRow(s[1..]);
    }
  }

  // ----- centred differences -----

  /** Difference of the two neighbours in the first index, over twice the spacing. */
  function Dx(f: Field, h: real, n: nat): Field
    requires h > 0.0
  {
    Tabulate(n, (i: nat, j: nat) =>
      if i < n && j < n then (At(f, Next(i, n), j) - At(f, Prev(i, n), j)) / (2.0 * h) else 0.0)
  }

  function Dy(f: Field, h: real, n: nat): Field
    requires h > 0.0
  {
    Tabulate(n, (i: nat, j: nat) =>
      if i < n && j < n then (At(f, i, Next(j, n)) - At(f, i, Prev(j, n))) / (2.0 * h) else 0.0)
  }

  /** The field whose root mean square `_divergence_rms` reports, for the vector field (x, y). */
  function Divergence(x: Field, y: Field, h: real, n: nat): Field
    requires h > 0.0
  {
    Plus(Dx(x, h, n), Dy(y, h, n), n)
  }

  /** Velocity from a stream function and field from a potential are built alike; both are exactly solenoidal. */
  lemma PotentialFieldsAreSolenoidal(psi: Field, h: real, n: nat)
    requires h > 0.0
    ensures Divergence(Dy(psi, h, n), Negate(Dx(psi, h, n), n), h, n) == ZeroField(n)
  {
    var u, v := Dy(psi, h, n), Negate(Dx(psi, h, n), n);
    var d := Divergence(u, v, h, n);
    forall i: nat, j: nat | i < n && j < n ensures At(d, i, j) == 0.0 {
      var ip, im, jp, jm := Next(i, n), Prev(i, n), Next(j, n), Prev(j, n);
      var c := 2.0 * h;
      var ne, se, nw, sw := At(psi, ip, jp), At(psi, ip, jm), At(psi, im, jp), At(psi, im, jm);
      assert At(u, ip, j) == (ne - se) / c && At(u, im, j) == (nw - sw) / c;
      assert At(v, i, jp) == -((ne - nw) / c) && At(v, i, jm) == -((se - sw) / c);
      MixedDifferences(ne, se, nw, sw, c);
    }
    FieldEquality(d, ZeroField(n), n);
  }

  lemma MixedDifferences(ne: real, se: real, nw: real, sw: real, c: real)
    requires c > 0.0
    ensures ((ne - se) / c - (nw - sw) / c) / c + (-((ne - nw) / c) - -((se - sw) / c)) / c == 0.0
  {
    var q := 1.0 / c;
    assert (ne - se) / c == (ne - se) * q && (nw - sw) / c == (nw - sw) * q;
    assert (ne - nw) / c == (ne - nw) * q && (se - sw) / c == (se - sw) * q;
    var x := (ne - se) / c - (nw - sw) / c;
    var y := -((ne - nw) / c) - -((se - sw) / c);
    assert y == -x;
    assert y / c == -(x / c);
  }

  // ----- aligned states -----

  lemma LaplacianOfDifference(f: Field, g: Field, h2: real, n: nat, i: nat, j: nat)
    requires h2 > 0.0 && i < n && j < n
    ensures At(Laplacian(Combine(1.0, f, -1.0, g, n), h2, n), i, j) ==
            At(Laplacian(f, h2, n), i, j) - At(Laplacian(g, h2, n), i, j)
  {
    var d := Combine(1.0, f, -1.0, g, n);
    assert FivePoint(d, n, i, j) == FivePoint(f, n, i, j) - FivePoint(g, n, i, j);
    var x, y := FivePoint(f, n, i, j), FivePoint(g, n, i, j);
    assert (x - y) / h2 == x / h2 - y / h2;
  }

  lemma TotalOfLaplacian(f: Field, h2: real, n: nat)
    requires h2 > 0.0 && n > 0
    ensures Total(Laplacian(f, h2, n)) == 0.0
  {
    LaplacianSumsToZero(f, h2, n);
    DotOnes(Laplacian(f, h2, n), n);
    hide Dot, Total, Laplacian;
  }

  /** Two fields with the same vorticity differ by a constant. */
  lemma StreamIsUniqueUpToConstant(psi': Field, psi: Field, omega: Field, h2: real, n: nat)
    requires h2 > 0.0 && InvertsLaplacian(psi', omega, h2, n)
    requires omega == Current(psi, h2, n)
    ensures forall i: nat, j: nat :: i < n && j < n ==>
            At(psi', i, j) == At(psi, i, j) + (At(psi', 0, 0) - At(psi, 0, 0))
  {
    hide Total, Area;
    var d := Combine(1.0, psi', -1.0, psi, n);
    TotalOfLaplacian(psi, h2, n);
    var lap := Laplacian(psi, h2, n);
    CurrentIsNegated(psi, h2, n);
    TotalCombine(omega, -1.0, lap, 0.0, lap, n);
    assert Total(omega) == 0.0 by { hide Laplacian, Total; }
    forall i: nat, j: nat | i < n && j < n ensures At(Laplacian(d, h2, n), i, j) == 0.0 {
      hide Laplacian, Total, Area;
      LaplacianOfDifference(psi', psi, h2, n, i, j);
      assert -At(Laplacian(psi', h2, n), i, j) == At(omega, i, j) - Total(omega) / Area(n);
      assert At(omega, i, j) == -At(lap, i, j);
    }
    HarmonicIsConstant(d, h2, n);
    forall i: nat, j: nat | i < n && j < n ensures At(psi', i, j) == At(psi, i, j) + (At(psi', 0, 0) - At(psi, 0, 0)) {
      assert At(d, i, j) == At(d, 0, 0);
    }
  }

  lemma JacobianIgnoresConstants(f: Field, f': Field, c: real, g: Field, n: nat, i: nat, j: nat)
    requires i < n && j < n
    requires forall i: nat, j: nat :: i < n && j < n ==> At(f', i, j) == At(f, i, j) + c
    ensures Jac(f', g, n, i, j) == Jac(f, g, n, i, j)
  {
    var ip, im, jp, jm := Next(i, n), Prev(i, n), Next(j, n), Prev(j, n);
    StencilShift(At(f, ip, j), At(f, im, j), At(f, i, jp), At(f, i, jm),
                 At(g, ip, jp), At(g, ip, jm), At(g, im, jp), At(g, im, jm), c);
  }

  /** The constant drops out of j2; in j1 and j3 only differences of f occur. */
  lemma StencilShift(e: real, w: real, n: real, s: real, ne: real, se: real, nw: real, sw: real, c: real)
    ensures (e + c) * (ne - se) - (w + c) * (nw - sw) - (n + c) * (ne - nw) + (s + c) * (se - sw) ==
            e * (ne - se) - w * (nw - sw) - n * (ne - nw) + s * (se - sw)
  {
  }

  lemma JacobianOfItself(f: Field, n: nat, i: nat, j: nat)
    requires i < n && j < n
    ensures Jac(f, f, n, i, j) == 0.0
  {
  }

  /** With a = psi and omega = -lap psi, for any psi at all, the ideal right-hand side is exactly zero. */
  lemma AlignedRateIsZero(psi: Field, k: State, p: Physics)
    requires p.h2 > 0.0 && p.viscosity == 0.0 && p.resistivity == 0.0 && Square(psi, p.n)
    requires IsRate(State(Current(psi, p.h2, p.n), psi), k, p)
    ensures k == State(ZeroField(p.n), ZeroField(p.n))
  {
    hide InvertsLaplacian, Current, Jac, JacobianScale, Laplacian;
    var n := p.n;
    var omega := Current(psi, p.h2, n);
    var psi' :| RateVia(psi', State(omega, psi), k, p);
    StreamIsUniqueUpToConstant(psi', psi, omega, p.h2, n);
    var c := At(psi', 0, 0) - At(psi, 0, 0);
    RatesAreSquare(psi', omega, psi, 0.0, 0.0, p.h2, n);
    forall i: nat, j: nat | i < n && j < n ensures At(k.omega, i, j) == 0.0 && At(k.a, i, j) == 0.0 {
      JacobianIgnoresConstants(psi, psi', c, omega, n, i, j);
      JacobianIgnoresConstants(psi, psi', c, psi, n, i, j);
      JacobianOfItself(psi, n, i, j);
    }
    FieldEquality(k.omega, ZeroField(n), n);
    FieldEquality(k.a, ZeroField(n), n);
  }

  /** Hence every ideal run from an aligned state stays there forever. */
  lemma {:induction false} AlignedRunIsSteady(psi: Field, trace: seq<State>, dt: real, p: Physics)
    requires p.h2 > 0.0 && p.viscosity == 0.0 && p.resistivity == 0.0 && Square(psi, p.n)
    requires IsRun(trace, dt, p) && trace[0] == State(Current(psi, p.h2, p.n), psi)
    ensures forall i :: 0 <= i < |trace| ==> trace[i] == trace[0]
  {
    hide MidpointStep, Current;
    if |trace| == 1 {
    } else {
      var rest := trace[..|trace| - 1];
      AlignedRunIsSteady(psi, rest, dt, p);
      assert trace[|trace| - 2] == rest[|trace| - 2];
      AlignedStep(psi, trace[|trace| - 1], dt, p);
    }
  }

  lemma AlignedStep(psi: Field, s': State, dt: real, p: Physics)
    requires p.h2 > 0.0 && p.viscosity == 0.0 && p.resistivity == 0.0 && Square(psi, p.n)
    requires MidpointStep(State(Current(psi, p.h2, p.n), psi), s', dt, p)
    ensures s' == State(Current(psi, p.h2, p.n), psi)
  {
    hide IsRate, Current;
    var n := p.n;
    var s := State(Current(psi, p.h2, n), psi);
    CurrentIsSquare(psi, p.h2, n);
    var k1: State, k2: State :| StepVia(k1, k2, s, s', dt, p);
    AlignedRateIsZero(psi, k1, p);
    AddNothing(s.omega, 0.5 * dt, n);
    AddNothing(s.a, 0.5 * dt, n);
    AlignedRateIsZero(psi, k2, p);
    AddNothing(s.omega, dt, n);
    AddNothing(s.a, dt, n);
  }

  lemma AddNothing(f: Field, c: real, n: nat)
    requires Square(f, n)
    ensures Combine(1.0, f, c, ZeroField(n), n) == f
  {
    FieldEquality(Combine(1.0, f, c, ZeroField(n), n), f, n);
  }
}
