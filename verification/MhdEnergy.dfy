/** The energy whose budget the right-hand side obeys: its exact change along a rate and over a midpoint step. */
module MhdEnergy {
  import opened Grid
  import opened Mhd
  import opened MhdRun
  import opened MhdStates
  import opened Poisson
  import opened RealArith

  /** Kinetic and magnetic energy of a state with stream function psi, up to the factor of the cell area. */
  function Energy(psi: Field, s: State, h2: real, n: nat): real
    requires h2 > 0.0
  {
    0.5 * (Dot(psi, s.omega, n) + Dot(s.a, Current(s.a, h2, n), n))
  }

  function Average(f: Field, g: Field, n: nat): Field {
    Combine(0.5, f, 0.5, g, n)
  }

  /** A field and a direction paired as the energy pairs them. */
  function Pairing(psi: Field, a: Field, k: State, h2: real, n: nat): real
    requires h2 > 0.0
  {
    Dot(psi, k.omega, n) + Dot(Current(a, h2, n), k.a, n)
  }

  // ----- the quadratic form of minus the Laplacian -----

  lemma CurrentCombine(c: real, f: Field, d: real, g: Field, h2: real, n: nat)
    requires h2 > 0.0
    ensures Current(Combine(c, f, d, g, n), h2, n) == Combine(c, Current(f, h2, n), d, Current(g, h2, n), n)
  {
    var k := Combine(c, f, d, g, n);
    var left, right := Current(k, h2, n), Combine(c, Current(f, h2, n), d, Current(g, h2, n), n);
    forall i: nat, j: nat | i < n && j < n ensures At(left, i, j) == At(right, i, j) {
      hide Lin;
      FivePointCombine(c, f, d, g, n, i, j);
      NegatedQuotient(FivePoint(k, n, i, j), c, FivePoint(f, n, i, j), d, FivePoint(g, n, i, j), h2);
      hide FivePoint;
    }
    FieldEquality(left, right, n);
  }

  lemma FivePointCombine(c: real, f: Field, d: real, g: Field, n: nat, i: nat, j: nat)
    requires i < n && j < n
    ensures FivePoint(Combine(c, f, d, g, n), n, i, j) == Lin(c, FivePoint(f, n, i, j), d, FivePoint(g, n, i, j))
  {
    var k := Combine(c, f, d, g, n);
    assert forall p: nat, q: nat :: p < n && q < n ==> At(k, p, q) == Lin(c, At(f, p, q), d, At(g, p, q));
  }

  lemma NegatedQuotient(k: real, c: real, x: real, d: real, y: real, h2: real)
    requires h2 > 0.0 && k == Lin(c, x, d, y)
    ensures -(k / h2) == Lin(c, -(x / h2), d, -(y / h2))
  {
  }

  lemma CurrentIsSymmetric(f: Field, g: Field, h2: real, n: nat)
    requires h2 > 0.0 && n > 0
    ensures Dot(f, Current(g, h2, n), n) == Dot(g, Current(f, h2, n), n)
  {
    hide Dot, Laplacian, Current;
    CurrentIsNegated(f, h2, n);
    CurrentIsNegated(g, h2, n);
    DotNegate(f, Laplacian(g, h2, n), n);
    DotNegate(g, Laplacian(f, h2, n), n);
    LaplacianIsSymmetric(f, g, h2, n);
  }

  lemma DotAverage(f: Field, f': Field, g: Field, n: nat)
    ensures Dot(Average(f, f', n), g, n) == 0.5 * Dot(f, g, n) + 0.5 * Dot(f', g, n)
  {
    DotCommutes(Average(f, f', n), g, n);
    DotCommutes(f, g, n);
    DotCommutes(f', g, n);
    DotCombine(g, 0.5, f, 0.5, f', n);
    hide Dot;
  }

  /** Moving the image of a field by t*g changes its form by 2t times the inner product of the average with g. */
  lemma FormChange(f: Field, f': Field, g: Field, t: real, h2: real, n: nat)
    requires h2 > 0.0 && n > 0
    requires Current(f', h2, n) == Combine(1.0, Current(f, h2, n), t, g, n)
    ensures 0.5 * Dot(f', Current(f', h2, n), n) - 0.5 * Dot(f, Current(f, h2, n), n) ==
            t * Dot(Average(f, f', n), g, n)
  {
    hide Dot, Current, Combine, Average;
    CurrentIsSymmetric(f, f', h2, n);
    DotCombine(f', 1.0, Current(f, h2, n), t, g, n);
    DotCombine(f, 1.0, Current(f, h2, n), t, g, n);
    DotAverage(f, f', g, n);
    assert t * (0.5 * Dot(f, g, n) + 0.5 * Dot(f', g, n)) == 0.5 * (t * Dot(f, g, n)) + 0.5 * (t * Dot(f', g, n));
  }

  lemma FormIsNonNegative(f: Field, h2: real, n: nat)
    requires h2 > 0.0 && n > 0
    ensures Dot(f, Current(f, h2, n), n) >= 0.0
  {
    hide Dot, Laplacian, Current, East, North, Combine;
    CurrentIsNegated(f, h2, n);
    DotNegate(f, Laplacian(f, h2, n), n);
    DirichletForm(f, h2, n);
    DotPositive(Combine(1.0, East(f, n), -1.0, f, n), n);
    DotPositive(Combine(1.0, North(f, n), -1.0, f, n), n);
    FactorSign(h2, -Dot(f, Laplacian(f, h2, n), n));
  }

  // ----- stream functions along a direction of zero sum -----

  lemma StreamCurrent(psi: Field, omega: Field, h2: real, n: nat)
    requires h2 > 0.0 && InvertsLaplacian(psi, omega, h2, n)
    ensures forall i: nat, j: nat :: i < n && j < n ==>
            At(Current(psi, h2, n), i, j) == At(omega, i, j) - Total(omega) / Area(n)
  {
    hide Laplacian, Total, Area;
  }

  /** The stream functions before and after a move along k differ as k.omega prescribes: the mean cancels. */
  lemma StreamChange(psi: Field, psi': Field, s: State, k: State, t: real, p: Physics)
    requires p.h2 > 0.0 && WellShaped(s, p) && Square(k.omega, p.n) && Total(k.omega) == 0.0
    requires InvertsLaplacian(psi, s.omega, p.h2, p.n)
    requires InvertsLaplacian(psi', AddScaledPair(s, k, t, p.n).omega, p.h2, p.n)
    ensures Current(psi', p.h2, p.n) == Combine(1.0, Current(psi, p.h2, p.n), t, k.omega, p.n)
  {
    hide Total, Area, Current, InvertsLaplacian;
    var n := p.n;
    var moved := AddScaledPair(s, k, t, n).omega;
    AddScaledKeepsSum(s.omega, k.omega, t, n);
    StreamCurrent(psi, s.omega, p.h2, n);
    StreamCurrent(psi', moved, p.h2, n);
    CurrentIsSquare(psi', p.h2, n);
    var right := Combine(1.0, Current(psi, p.h2, n), t, k.omega, n);
    forall i: nat, j: nat | i < n && j < n ensures At(Current(psi', p.h2, n), i, j) == At(right, i, j) {
      assert At(moved, i, j) == Lin(1.0, At(s.omega, i, j), t, At(k.omega, i, j));
    }
    FieldEquality(Current(psi', p.h2, n), right, n);
  }

  /** The stream function has zero sum, so the mean of the vorticity does not enter its form. */
  lemma StreamForm(psi: Field, omega: Field, h2: real, n: nat)
    requires h2 > 0.0 && InvertsLaplacian(psi, omega, h2, n)
    ensures Dot(psi, Current(psi, h2, n), n) == Dot(psi, omega, n)
  {
    hide Dot, Total, Area, Laplacian, Current, OnesField, Negate;
    CurrentIsNegated(psi, h2, n);
    DotNegate(psi, Laplacian(psi, h2, n), n);
    StreamLaplacian(psi, omega, h2, n);
    DotCombine(psi, -1.0, omega, Total(omega) / Area(n), OnesField(n), n);
    DotOnes(psi, n);
  }

  // ----- changes of energy -----

  /** Exact change of energy along any direction of zero sum, a mean-value form without remainder. */
  lemma EnergyChange(psi: Field, psi': Field, s: State, k: State, t: real, p: Physics)
    requires p.h2 > 0.0 && WellShaped(s, p) && Square(k.omega, p.n) && Total(k.omega) == 0.0
    requires InvertsLaplacian(psi, s.omega, p.h2, p.n)
    requires InvertsLaplacian(psi', AddScaledPair(s, k, t, p.n).omega, p.h2, p.n)
    ensures var next := AddScaledPair(s, k, t, p.n);
            Energy(psi', next, p.h2, p.n) - Energy(psi, s, p.h2, p.n) ==
            t * Pairing(Average(psi, psi', p.n), Average(s.a, next.a, p.n), k, p.h2, p.n)
  {
    hide Dot, Total, Current, Average, Combine, InvertsLaplacian;
    var n, h2, next := p.n, p.h2, AddScaledPair(s, k, t, p.n);
    GridIsNonEmpty(psi, s.omega, h2, n);
    StreamForm(psi, s.omega, h2, n);
    StreamForm(psi', next.omega, h2, n);
    StreamChange(psi, psi', s, k, t, p);
    FormChange(psi, psi', k.omega, t, h2, n);
    CurrentCombine(1.0, s.a, t, k.a, h2, n);
    FormChange(s.a, next.a, Current(k.a, h2, n), t, h2, n);
    var mean := Average(s.a, next.a, n);
    CurrentIsSymmetric(mean, k.a, h2, n);
    DotCommutes(k.a, Current(mean, h2, n), n);
    var x, y := Dot(Average(psi, psi', n), k.omega, n), Dot(Current(mean, h2, n), k.a, n);
    assert t * (x + y) == t * x + t * y;
  }

  /** Stream functions superpose along a direction of zero sum. */
  lemma StreamAlong(psi: Field, chi: Field, s: State, k: State, t: real, p: Physics)
    requires p.h2 > 0.0 && WellShaped(s, p) && Square(k.omega, p.n) && Total(k.omega) == 0.0
    requires InvertsLaplacian(psi, s.omega, p.h2, p.n) && InvertsLaplacian(chi, k.omega, p.h2, p.n)
    ensures InvertsLaplacian(Combine(1.0, psi, t, chi, p.n), AddScaledPair(s, k, t, p.n).omega, p.h2, p.n)
  {
    hide Total, Area, Current;
    var n, h2 := p.n, p.h2;
    var moved, stream := AddScaledPair(s, k, t, n).omega, Combine(1.0, psi, t, chi, n);
    AddScaledKeepsSum(s.omega, k.omega, t, n);
    AddScaledKeepsSum(psi, chi, t, n);
    CurrentCombine(1.0, psi, t, chi, h2, n);
    StreamCurrent(psi, s.omega, h2, n);
    StreamCurrent(chi, k.omega, h2, n);
    assert 0.0 / Area(n) == 0.0;
    forall i: nat, j: nat | i < n && j < n
      ensures -At(Laplacian(stream, h2, n), i, j) == At(moved, i, j) - Total(moved) / Area(n)
    {
      CurrentAt(stream, h2, n, i, j);
      hide Laplacian;
    }
  }

  lemma CurrentAt(f: Field, h2: real, n: nat, i: nat, j: nat)
    requires h2 > 0.0 && i < n && j < n
    ensures At(Current(f, h2, n), i, j) == -At(Laplacian(f, h2, n), i, j)
  {
    hide Laplacian;
  }

  lemma DotCombineLeft(c: real, f: Field, d: real, g: Field, h: Field, n: nat)
    ensures Dot(Combine(c, f, d, g, n), h, n) == c * Dot(f, h, n) + d * Dot(g, h, n)
  {
    DotCommutes(Combine(c, f, d, g, n), h, n);
    DotCommutes(f, h, n);
    DotCommutes(g, h, n);
    DotCombine(h, c, f, d, g, n);
    hide Dot;
  }

  lemma PairingCombine(c: real, psi: Field, a: Field, d: real, psi': Field, a': Field, k: State, h2: real, n: nat)
    requires h2 > 0.0
    ensures Pairing(Combine(c, psi, d, psi', n), Combine(c, a, d, a', n), k, h2, n) ==
            c * Pairing(psi, a, k, h2, n) + d * Pairing(psi', a', k, h2, n)
  {
    hide Dot, Current, Combine;
    CurrentCombine(c, a, d, a', h2, n);
    DotCombineLeft(c, psi, d, psi', k.omega, n);
    DotCombineLeft(c, Current(a, h2, n), d, Current(a', h2, n), k.a, n);
  }

  /** The expansion of the energy along the right-hand side: the budget expression is its exact derivative,
      and the second-order term is the energy of the rate itself. */
  lemma EnergyAlongRate(psi: Field, chi: Field, s: State, k: State, t: real, p: Physics)
    requires p.h2 > 0.0 && WellShaped(s, p) && RateVia(psi, s, k, p) && InvertsLaplacian(chi, k.omega, p.h2, p.n)
    ensures var next, stream := AddScaledPair(s, k, t, p.n), Combine(1.0, psi, t, chi, p.n);
            && InvertsLaplacian(stream, next.omega, p.h2, p.n)
            && Energy(stream, next, p.h2, p.n) ==
               Energy(psi, s, p.h2, p.n) + t * Pairing(psi, s.a, k, p.h2, p.n) + t * t * Energy(chi, k, p.h2, p.n)
  {
    hide Dot, Total, Current, Combine, InvertsLaplacian, VorticityRate, PotentialRate, Square;
    var n, h2, next, stream := p.n, p.h2, AddScaledPair(s, k, t, p.n), Combine(1.0, psi, t, chi, p.n);
    RateHasZeroSum(psi, s, k, p);
    StreamAlong(psi, chi, s, k, t, p);
    EnergyChange(psi, stream, s, k, t, p);
    PairingCombine(0.5, psi, s.a, 0.5, stream, next.a, k, h2, n);
    PairingCombine(1.0, psi, s.a, t, chi, k.a, k, h2, n);
    DotCommutes(k.a, Current(k.a, h2, n), n);
    ExpandRate(t, Pairing(psi, s.a, k, h2, n), Energy(chi, k, h2, n));
  }

  lemma ExpandRate(t: real, rate: real, second: real)
    ensures t * (0.5 * rate + 0.5 * (1.0 * rate + t * (2.0 * second))) == t * rate + t * t * second
  {
  }

  lemma RateHasZeroSum(psi: Field, s: State, k: State, p: Physics)
    requires p.h2 > 0.0 && RateVia(psi, s, k, p)
    ensures Total(k.omega) == 0.0 && Total(k.a) == 0.0 && Square(k.omega, p.n) && Square(k.a, p.n)
  {
    hide InvertsLaplacian, VorticityRate, PotentialRate, Total;
    GridIsNonEmpty(psi, s.omega, p.h2, p.n);
    RatesSumToZero(psi, s.omega, s.a, p.viscosity, p.resistivity, p.h2, p.n);
    RatesAreSquare(psi, s.omega, s.a, p.viscosity, p.resistivity, p.h2, p.n);
  }

  /** The power that viscosity and resistivity take out at a state. */
  function Dissipation(s: State, p: Physics): real
    requires p.h2 > 0.0 && Area(p.n) > 0.0
  {
    var j := Current(s.a, p.h2, p.n);
    p.viscosity * (Dot(s.omega, s.omega, p.n) - Total(s.omega) / Area(p.n) * Total(s.omega))
    + p.resistivity * Dot(j, j, p.n)
  }

  /** The derivative of the energy along the right-hand side is minus the dissipation: never positive with
      non-negative coefficients, and zero for the ideal equations. */
  lemma EnergyNeverGrows(psi: Field, s: State, k: State, p: Physics)
    requires p.h2 > 0.0 && WellShaped(s, p) && RateVia(psi, s, k, p)
    requires p.viscosity >= 0.0 && p.resistivity >= 0.0
    ensures Area(p.n) > 0.0
    ensures var rate := Pairing(psi, s.a, k, p.h2, p.n);
            rate == -Dissipation(s, p) <= 0.0 && (p.viscosity == 0.0 && p.resistivity == 0.0 ==> rate == 0.0)
  {
    hide InvertsLaplacian, VorticityRate, PotentialRate, Current, Dot, Total, Area;
    GridIsNonEmpty(psi, s.omega, p.h2, p.n);
    AreaPositive(p.n);
    EnergyBudget(psi, s.omega, s.a, p.viscosity, p.resistivity, p.h2, p.n);
    VarianceIsNonNegative(s.omega, p.n);
    var j := Current(s.a, p.h2, p.n);
    DotPositive(j, p.n);
    NonNegativeProduct(p.viscosity, Dot(s.omega, s.omega, p.n) - Total(s.omega) / Area(p.n) * Total(s.omega));
    NonNegativeProduct(p.resistivity, Dot(j, j, p.n));
  }

  lemma NonNegativeProduct(x: real, y: real)
    requires x >= 0.0 && y >= 0.0
    ensures x * y >= 0.0 && (x == 0.0 ==> x * y == 0.0)
  {
  }

  /** Over a midpoint step the energy loses exactly what the midpoint dissipates, up to the power against the
      midpoint's own defect; the defect is half a step times the change of the rate, so the error is of third order. */
  lemma MidpointEnergyBalance(psi: Field, mid: Field, psi': Field, s: State, k1: State, k2: State, dt: real, p: Physics)
    requires p.h2 > 0.0 && WellShaped(s, p) && RateVia(psi, s, k1, p)
    requires RateVia(mid, AddScaledPair(s, k1, 0.5 * dt, p.n), k2, p)
    requires InvertsLaplacian(psi', AddScaledPair(s, k2, dt, p.n).omega, p.h2, p.n)
    ensures var half, next := AddScaledPair(s, k1, 0.5 * dt, p.n), AddScaledPair(s, k2, dt, p.n);
            var defect := Combine(1.0, Average(psi, psi', p.n), -1.0, mid, p.n);
            var defectA := Combine(1.0, Average(s.a, next.a, p.n), -1.0, half.a, p.n);
            && Area(p.n) > 0.0
            && Energy(psi', next, p.h2, p.n) - Energy(psi, s, p.h2, p.n) ==
               -dt * Dissipation(half, p) + dt * Pairing(defect, defectA, k2, p.h2, p.n)
            && Current(defect, p.h2, p.n) == Combine(0.5 * dt, k2.omega, -0.5 * dt, k1.omega, p.n)
            && defectA == Combine(0.5 * dt, k2.a, -0.5 * dt, k1.a, p.n)
  {
    hide Dot, Total, Area, Current, Combine, InvertsLaplacian, VorticityRate, PotentialRate, Square;
    var n, h2 := p.n, p.h2;
    var half, next := AddScaledPair(s, k1, 0.5 * dt, n), AddScaledPair(s, k2, dt, n);
    GridIsNonEmpty(psi, s.omega, h2, n);
    AreaPositive(n);
    RateHasZeroSum(psi, s, k1, p);
    RateHasZeroSum(mid, half, k2, p);
    StepIsWellShaped(s, k1, 0.5 * dt, n);
    EnergyChange(psi, psi', s, k2, dt, p);
    PairingCombine(1.0, Average(psi, psi', n), Average(s.a, next.a, n), -1.0, mid, half.a, k2, h2, n);
    EnergyBudget(mid, half.omega, half.a, p.viscosity, p.resistivity, h2, n);
    StreamChange(psi, mid, s, k1, 0.5 * dt, p);
    StreamChange(psi, psi', s, k2, dt, p);
    CurrentCombine(0.5, psi, 0.5, psi', h2, n);
    CurrentCombine(1.0, Average(psi, psi', n), -1.0, mid, h2, n);
    DefectOfAverage(Current(psi, h2, n), k1.omega, k2.omega, dt, n);
    DefectOfAverage(s.a, k1.a, k2.a, dt, n);
    Distribute(dt, Pairing(mid, half.a, k2, h2, n), Dissipation(half, p));
  }

  lemma Distribute(dt: real, rate: real, loss: real)
    requires rate == -loss
    ensures dt * rate == -dt * loss
  {
  }

  lemma DefectOfAverage(f: Field, k1: Field, k2: Field, dt: real, n: nat)
    ensures Combine(1.0, Average(f, Combine(1.0, f, dt, k2, n), n), -1.0, Combine(1.0, f, 0.5 * dt, k1, n), n) ==
            Combine(0.5 * dt, k2, -0.5 * dt, k1, n)
  {
    var left := Combine(1.0, Average(f, Combine(1.0, f, dt, k2, n), n), -1.0, Combine(1.0, f, 0.5 * dt, k1, n), n);
    var right := Combine(0.5 * dt, k2, -0.5 * dt, k1, n);
    forall i: nat, j: nat | i < n && j < n ensures At(left, i, j) == At(right, i, j) {
      DefectAt(At(f, i, j), At(k1, i, j), At(k2, i, j), dt);
      hide Lin;
    }
    FieldEquality(left, right, n);
  }

  lemma DefectAt(x: real, y: real, z: real, dt: real)
    ensures Lin(1.0, Lin(0.5, x, 0.5, Lin(1.0, x, dt, z)), -1.0, Lin(1.0, x, 0.5 * dt, y)) ==
            Lin(0.5 * dt, z, -0.5 * dt, y)
  {
  }

  /** Energy is a sum of squares of differences, hence never negative. */
  lemma EnergyIsNonNegative(psi: Field, s: State, h2: real, n: nat)
    requires h2 > 0.0 && InvertsLaplacian(psi, s.omega, h2, n)
    ensures Energy(psi, s, h2, n) >= 0.0
  {
    hide Dot, InvertsLaplacian, Current;
    GridIsNonEmpty(psi, s.omega, h2, n);
    StreamForm(psi, s.omega, h2, n);
    FormIsNonNegative(psi, h2, n);
    FormIsNonNegative(s.a, h2, n);
  }
}
