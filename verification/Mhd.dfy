/** The finite-difference resistive-MHD right-hand side: its exact energy budget, the budgets of the other
    quadratic invariants and the sums it conserves. */
module Mhd {
  import opened Arakawa
  import opened Grid
  import opened RealArith
  import opened Poisson

  // ----- the right-hand side, given the stream function -----

  function JacobianScale(h2: real): real
    requires h2 > 0.0
  {
    1.0 / (12.0 * h2)
  }

  /** Minus the five-point Laplacian of the potential. */
  function Current(a: Field, h2: real, n: nat): Field
    requires h2 > 0.0
  {
    Tabulate(n, (i: nat, j: nat) => -At(Laplacian(a, h2, n), i, j))
  }

  /** x + y + c*z, entry by entry. */
  function Blend(x: Field, y: Field, c: real, z: Field, n: nat): Field {
    Tabulate(n, (i: nat, j: nat) => At(x, i, j) + At(y, i, j) + Product(c, At(z, i, j)))
  }

  function Negate(f: Field, n: nat): Field {
    Tabulate(n, (i: nat, j: nat) => -At(f, i, j))
  }

  function ZeroField(n: nat): Field {
    Tabulate(n, (i: nat, j: nat) => 0.0)
  }

  function VorticityRate(psi: Field, omega: Field, a: Field, viscosity: real, h2: real, n: nat): Field
    requires h2 > 0.0
  {
    var c := JacobianScale(h2);
    Blend(JacobianField(psi, omega, c, n), Negate(JacobianField(a, Current(a, h2, n), c, n), n),
          viscosity, Laplacian(omega, h2, n), n)
  }

  function PotentialRate(psi: Field, a: Field, resistivity: real, h2: real, n: nat): Field
    requires h2 > 0.0
  {
    Blend(JacobianField(psi, a, JacobianScale(h2), n), ZeroField(n), resistivity, Laplacian(a, h2, n), n)
  }

  /** The two rates at one point: advection by the stream function, the Lorentz term with the opposite sign in the
      first, and diffusion. */
  lemma RatesAt(psi: Field, omega: Field, a: Field, viscosity: real, resistivity: real, h2: real, n: nat, i: nat,
                j: nat)
    requires h2 > 0.0 && i < n && j < n
    ensures var c, current := 1.0 / (12.0 * h2), Current(a, h2, n);
            && (forall k: nat, l: nat :: k < n && l < n ==> At(current, k, l) == -(FivePoint(a, n, k, l) / h2))
            && At(VorticityRate(psi, omega, a, viscosity, h2, n), i, j) ==
               c * Jac(psi, omega, n, i, j) - c * Jac(a, current, n, i, j)
               + Product(viscosity, FivePoint(omega, n, i, j) / h2)
            && At(PotentialRate(psi, a, resistivity, h2, n), i, j) ==
               c * Jac(psi, a, n, i, j) + Product(resistivity, FivePoint(a, n, i, j) / h2)
  {
    hide Jac, Product;
  }

  // ----- inner products with the terms of the right-hand side -----

  lemma DotPlus(f: Field, x: Field, y: Field, n: nat)
    ensures Dot(f, Plus(x, y, n), n) == Dot(f, x, n) + Dot(f, y, n)
  {
    FieldEquality(Plus(x, y, n), Combine(1.0, x, 1.0, y, n), n);
    DotCombine(f, 1.0, x, 1.0, y, n);
  }

  lemma DotBlend(f: Field, x: Field, y: Field, c: real, z: Field, n: nat)
    ensures Dot(f, Blend(x, y, c, z, n), n) == Dot(f, x, n) + Dot(f, y, n) + c * Dot(f, z, n)
  {
    var s := Plus(x, y, n);
    var b := Blend(x, y, c, z, n);
    forall i: nat, j: nat | i < n && j < n ensures At(b, i, j) == At(Combine(1.0, s, c, z, n), i, j) {
      assert At(s, i, j) == At(x, i, j) + At(y, i, j);
    }
    FieldEquality(b, Combine(1.0, s, c, z, n), n);
    DotCombine(f, 1.0, s, c, z, n);
    DotPlus(f, x, y, n);
    hide Dot;
  }

  lemma DotNegate(f: Field, g: Field, n: nat)
    ensures Dot(f, Negate(g, n), n) == -Dot(f, g, n)
  {
    FieldEquality(Negate(g, n), Combine(-1.0, g, 0.0, g, n), n);
    DotCombine(f, -1.0, g, 0.0, g, n);
    hide Dot;
  }

  lemma DotZero(f: Field, n: nat)
    ensures Dot(f, ZeroField(n), n) == 0.0
  {
    TotalZero(Times(f, ZeroField(n), n), n);
  }

  lemma DotJacobian(h: Field, f: Field, g: Field, c: real, n: nat)
    ensures Dot(h, JacobianField(f, g, c, n), n) == c * Bracket(h, f, g, n)
  {
    var unit := JacobianField(f, g, 1.0, n);
    forall i: nat, j: nat | i < n && j < n
      ensures At(JacobianField(f, g, c, n), i, j) == At(Combine(c, unit, 0.0, unit, n), i, j)
    {
      hide Jac;
    }
    FieldEquality(JacobianField(f, g, c, n), Combine(c, unit, 0.0, unit, n), n);
    DotCombine(h, c, unit, 0.0, unit, n);
  }

  lemma CurrentIsNegated(a: Field, h2: real, n: nat)
    requires h2 > 0.0
    ensures Current(a, h2, n) == Negate(Laplacian(a, h2, n), n)
  {
  }

  /** Inner product of any field with the two rates, in brackets and Laplacians. */
  lemma DotRates(f: Field, psi: Field, omega: Field, a: Field, viscosity: real, resistivity: real, h2: real, n: nat)
    requires h2 > 0.0
    ensures var c, j := JacobianScale(h2), Current(a, h2, n);
            && Dot(f, VorticityRate(psi, omega, a, viscosity, h2, n), n) ==
               c * Bracket(f, psi, omega, n) - c * Bracket(f, a, j, n) + viscosity * Dot(f, Laplacian(omega, h2, n), n)
            && Dot(f, PotentialRate(psi, a, resistivity, h2, n), n) ==
               c * Bracket(f, psi, a, n) - resistivity * Dot(f, j, n)
  {
    hide Dot, Bracket, Laplacian, JacobianField, Blend, Negate, ZeroField, Current;
    var c, j := JacobianScale(h2), Current(a, h2, n);
    var lorentz := JacobianField(a, j, c, n);
    DotBlend(f, JacobianField(psi, omega, c, n), Negate(lorentz, n), viscosity, Laplacian(omega, h2, n), n);
    DotNegate(f, lorentz, n);
    DotJacobian(f, a, j, c, n);
    DotJacobian(f, psi, omega, c, n);
    DotBlend(f, JacobianField(psi, a, c, n), ZeroField(n), resistivity, Laplacian(a, h2, n), n);
    DotZero(f, n);
    DotJacobian(f, psi, a, c, n);
    CurrentIsNegated(a, h2, n);
    DotNegate(f, Laplacian(a, h2, n), n);
  }

  lemma StreamLaplacian(psi: Field, omega: Field, h2: real, n: nat)
    requires h2 > 0.0 && InvertsLaplacian(psi, omega, h2, n)
    ensures Laplacian(psi, h2, n) == Combine(-1.0, omega, Total(omega) / Area(n), OnesField(n), n)
  {
    var mean := Total(omega) / Area(n);
    var lap := Laplacian(psi, h2, n);
    forall i: nat, j: nat | i < n && j < n
      ensures At(lap, i, j) == At(Combine(-1.0, omega, mean, OnesField(n), n), i, j)
    {
      assert -At(lap, i, j) == At(omega, i, j) - mean;
      assert At(OnesField(n), i, j) == 1.0;
      hide Laplacian, Total, Area;
    }
    FieldEquality(lap, Combine(-1.0, omega, mean, OnesField(n), n), n);
  }

  /** Minus the Laplacian of the stream function, against the vorticity. */
  lemma DotStreamLaplacian(psi: Field, omega: Field, h2: real, n: nat)
    requires h2 > 0.0 && InvertsLaplacian(psi, omega, h2, n) && Square(omega, n)
    ensures Dot(psi, Laplacian(omega, h2, n), n) == -(Dot(omega, omega, n) - Total(omega) / Area(n) * Total(omega))
  {
    hide Dot, Laplacian, Total, Area, Combine;
    LaplacianIsSymmetric(psi, omega, h2, n);
    StreamLaplacian(psi, omega, h2, n);
    DotCombine(omega, -1.0, omega, Total(omega) / Area(n), OnesField(n), n);
    DotOnes(omega, n);
  }

  function OnesField(n: nat): Field {
    Tabulate(n, (i: nat, j: nat) => 1.0)
  }

  lemma DotOnes(f: Field, n: nat)
    requires Square(f, n)
    ensures Dot(f, OnesField(n), n) == Total(f) && Dot(OnesField(n), f, n) == Total(f)
  {
    FieldEquality(Times(f, OnesField(n), n), f, n);
    DotCommutes(f, OnesField(n), n);
  }

  // ----- conservation laws -----

  /** Exact discrete energy budget: the nonlinear terms cancel, and only viscosity and resistivity act. */
  lemma EnergyBudget(psi: Field, omega: Field, a: Field, viscosity: real, resistivity: real, h2: real, n: nat)
    requires h2 > 0.0 && InvertsLaplacian(psi, omega, h2, n) && Square(omega, n)
    ensures var j := Current(a, h2, n);
            Dot(psi, VorticityRate(psi, omega, a, viscosity, h2, n), n)
            + Dot(j, PotentialRate(psi, a, resistivity, h2, n), n) ==
            -viscosity * (Dot(omega, omega, n) - Total(omega) / Area(n) * Total(omega)) - resistivity * Dot(j, j, n)
  {
    hide Dot, Bracket, Laplacian, VorticityRate, PotentialRate, Current, Total, Area;
    var c, j := JacobianScale(h2), Current(a, h2, n);
    DotRates(psi, psi, omega, a, viscosity, resistivity, h2, n);
    DotRates(j, psi, omega, a, viscosity, resistivity, h2, n);
    DotStreamLaplacian(psi, omega, h2, n);
    BracketVanishes(psi, omega, n);
    BracketSymmetries(j, psi, a, n);
    assert Bracket(psi, psi, omega, n) == 0.0 && Bracket(j, psi, a, n) == Bracket(psi, a, j, n);
    var enstrophy := Dot(omega, omega, n) - Total(omega) / Area(n) * Total(omega);
    assert viscosity * Dot(psi, Laplacian(omega, h2, n), n) == -viscosity * enstrophy;
  }

  /** Magnetic-potential variance and cross-helicity change only through the diffusive terms. */
  lemma QuadraticInvariants(psi: Field, omega: Field, a: Field, viscosity: real, resistivity: real, h2: real, n: nat)
    requires h2 > 0.0 && n > 0
    ensures var j := Current(a, h2, n);
            var dOmega, dA := VorticityRate(psi, omega, a, viscosity, h2, n), PotentialRate(psi, a, resistivity, h2, n);
            && Dot(a, dA, n) == -resistivity * Dot(a, j, n)
            && Dot(omega, dA, n) + Dot(a, dOmega, n) == -(viscosity + resistivity) * Dot(omega, j, n)
  {
    hide Dot, Bracket, Laplacian, VorticityRate, PotentialRate, Current;
    var c, j := JacobianScale(h2), Current(a, h2, n);
    DotRates(a, psi, omega, a, viscosity, resistivity, h2, n);
    DotRates(omega, psi, omega, a, viscosity, resistivity, h2, n);
    BracketVanishes(a, psi, n);
    BracketVanishes(a, j, n);
    BracketSymmetries(omega, psi, a, n);
    BracketSymmetries(psi, a, omega, n);
    BracketSymmetries(a, psi, omega, n);
    assert Bracket(omega, psi, a, n) == -Bracket(a, psi, omega, n);
    LaplacianIsSymmetric(a, omega, h2, n);
    CurrentIsNegated(a, h2, n);
    DotNegate(omega, Laplacian(a, h2, n), n);
    assert c * Bracket(omega, psi, a, n) + c * Bracket(a, psi, omega, n) == 0.0;
    assert viscosity * Dot(a, Laplacian(omega, h2, n), n) == -viscosity * Dot(omega, j, n);
  }

  /** The stencil annihilates constants. */
  lemma JacobianOfConstant(f: Field, g: Field, n: nat)
    requires n > 0
    ensures Bracket(f, OnesField(n), g, n) == 0.0
  {
    var z := JacobianField(OnesField(n), g, 1.0, n);
    forall i: nat, j: nat | i < n && j < n ensures At(z, i, j) == 0.0 {
      var ones := OnesField(n);
      assert forall k: nat, l: nat :: k < n && l < n ==> At(ones, k, l) == 1.0;
    }
    FieldEquality(z, ZeroField(n), n);
    DotZero(f, n);
  }

  lemma LaplacianOfOnes(h2: real, n: nat)
    requires h2 > 0.0 && n > 0
    ensures Laplacian(OnesField(n), h2, n) == ZeroField(n)
  {
    var ones := OnesField(n);
    var lap := Laplacian(ones, h2, n);
    forall i: nat, j: nat | i < n && j < n ensures At(lap, i, j) == 0.0 {
      assert FivePoint(ones, n, i, j) == 0.0;
      assert 0.0 / h2 == 0.0;
    }
    FieldEquality(lap, ZeroField(n), n);
  }

  lemma LaplacianSumsToZero(f: Field, h2: real, n: nat)
    requires h2 > 0.0 && n > 0
    ensures Dot(OnesField(n), Laplacian(f, h2, n), n) == 0.0
  {
    hide Dot, Laplacian, OnesField, ZeroField;
    LaplacianIsSymmetric(OnesField(n), f, h2, n);
    LaplacianOfOnes(h2, n);
    DotZero(f, n);
  }

  /** A bracket with a constant in first place vanishes, so the stencil sums to zero. */
  lemma JacobianSumsToZero(f: Field, g: Field, n: nat)
    requires n > 0
    ensures Bracket(OnesField(n), f, g, n) == 0.0
  {
    hide Bracket, OnesField;
    BracketSymmetries(g, OnesField(n), f, n);
    JacobianOfConstant(g, f, n);
  }

  /** Whatever the stream function, the rates sum to zero over the grid. */
  lemma RatesSumToZero(psi: Field, omega: Field, a: Field, viscosity: real, resistivity: real, h2: real, n: nat)
    requires h2 > 0.0 && n > 0
    ensures Total(VorticityRate(psi, omega, a, viscosity, h2, n)) == 0.0
    ensures Total(PotentialRate(psi, a, resistivity, h2, n)) == 0.0
  {
    hide Dot, Bracket, Laplacian, VorticityRate, PotentialRate, Current, Total, OnesField, Square;
    OnesAgainstRates(psi, omega, a, viscosity, resistivity, h2, n);
    RatesAreSquare(psi, omega, a, viscosity, resistivity, h2, n);
    DotOnes(VorticityRate(psi, omega, a, viscosity, h2, n), n);
    DotOnes(PotentialRate(psi, a, resistivity, h2, n), n);
  }

  lemma OnesAgainstRates(psi: Field, omega: Field, a: Field, viscosity: real, resistivity: real, h2: real, n: nat)
    requires h2 > 0.0 && n > 0
    ensures Dot(OnesField(n), VorticityRate(psi, omega, a, viscosity, h2, n), n) == 0.0
    ensures Dot(OnesField(n), PotentialRate(psi, a, resistivity, h2, n), n) == 0.0
  {
    hide Dot, Bracket, Laplacian, VorticityRate, PotentialRate, Current, OnesField, JacobianScale, Negate, Square;
    var ones, j, c := OnesField(n), Current(a, h2, n), JacobianScale(h2);
    DotRates(ones, psi, omega, a, viscosity, resistivity, h2, n);
    JacobianSumsToZero(psi, omega, n);
    JacobianSumsToZero(a, j, n);
    JacobianSumsToZero(psi, a, n);
    LaplacianSumsToZero(omega, h2, n);
    LaplacianSumsToZero(a, h2, n);
    CurrentIsNegated(a, h2, n);
    DotNegate(ones, Laplacian(a, h2, n), n);
    assert c * 0.0 == 0.0 && viscosity * 0.0 == 0.0 && resistivity * 0.0 == 0.0;
  }

  lemma RatesAreSquare(psi: Field, omega: Field, a: Field, viscosity: real, resistivity: real, h2: real, n: nat)
    requires h2 > 0.0
    ensures Square(VorticityRate(psi, omega, a, viscosity, h2, n), n)
    ensures Square(PotentialRate(psi, a, resistivity, h2, n), n)
  {
    hide Laplacian, JacobianField, Current, Negate, ZeroField, JacobianScale;
  }
}
