/** The transient Hartmann reference: the Crank-Nicolson step, its exact energy budget over whole runs,
    and the steady profile as its attracting fixed point. */
module Hartmann {
  import opened RealArith
  import opened Rounding
  import opened Tridiagonal
  import opened Wrappers

  // ----- the scheme -----

  /** Coefficients of one step: time step, grid spacing and squared Hartmann number. */
  datatype Scheme = Scheme(dt: real, dy: real, ha2: real) {
    ghost predicate Valid() {
      dt > 0.0 && dy > 0.0 && ha2 >= 0.0
    }

    function Ratio(): real
      requires dy > 0.0
    {
      dt / (2.0 * dy * dy)
    }

    function DampingHalf(): real {
      0.5 * dt * ha2
    }
  }

  ghost predicate ZeroEnds(v: seq<real>) {
    |v| >= 3 && v[0] == 0.0 && v[|v| - 1] == 0.0
  }

  /** Second difference at an interior node. */
  function Bend(v: seq<real>, i: nat): real
    requires 1 <= i < |v| - 1
  {
    v[i - 1] - 2.0 * v[i] + v[i + 1]
  }

  /** `u` follows `v` by one Crank-Nicolson step with constant forcing `g`. */
  ghost predicate CnStep(v: seq<real>, u: seq<real>, c: Scheme, g: real)
    requires c.Valid()
  {
    && |u| == |v| && ZeroEnds(u)
    && forall i: nat :: 1 <= i < |v| - 1 ==> CnEquation(v, u, c, g, i)
  }

  ghost predicate CnEquation(v: seq<real>, u: seq<real>, c: Scheme, g: real, i: nat)
    requires c.Valid() && |u| == |v| && 1 <= i < |v| - 1
  {
    var r, d := c.Ratio(), c.DampingHalf();
    (1.0 + 2.0 * r + d) * u[i] - r * (u[i - 1] + u[i + 1]) ==
    (1.0 - 2.0 * r - d) * v[i] + r * (v[i - 1] + v[i + 1]) + g * c.dt
  }

  // ----- the pivots of the implicit system -----

  /** The tridiagonal system of one step. */
  function StepSystem(v: seq<real>, c: Scheme): System
    requires |v| >= 3 && c.dy > 0.0
  {
    var n, r, d := |v| - 2, c.Ratio(), c.DampingHalf();
    System(seq(n - 1, _ => -r), seq(n, _ => 1.0 + 2.0 * r + d), seq(n - 1, _ => -r),
           seq(n, k requires 0 <= k < n => StepRhs(v, c, k + 1)))
  }

  function StepRhs(v: seq<real>, c: Scheme, i: nat): real
    requires 1 <= i < |v| - 1 && c.dy > 0.0
  {
    var r, d := c.Ratio(), c.DampingHalf();
    (1.0 - 2.0 * r - d) * v[i] + r * (v[i - 1] + v[i + 1]) + c.dt
  }

  lemma RatioPositive(c: Scheme)
    requires c.Valid()
    ensures c.Ratio() > 0.0 && c.DampingHalf() >= 0.0
  {
    ProductOfPositives(c.dy, c.dy);
    assert 2.0 * c.dy * c.dy == 2.0 * Product(c.dy, c.dy);
    PositiveQuotient(c.dt, 2.0 * c.dy * c.dy);
    assert c.dt * c.ha2 >= 0.0;
  }

  /** Every pivot is at least one, so no step is ever reported as degenerate. */
  lemma {:induction false} StepPivots(v: seq<real>, c: Scheme, k: nat)
    requires |v| >= 3 && c.Valid() && k < |v| - 2
    ensures StepSystem(v, c).Shaped()
    ensures StepSystem(v, c).Pivot(k) >= 1.0
    ensures k + 1 < |v| - 2 ==> -1.0 <= StepSystem(v, c).CPrime(k) <= 0.0
  {
    var s := StepSystem(v, c);
    var r, d := c.Ratio(), c.DampingHalf();
    RatioPositive(c);
    if k == 0 {
    } else {
      StepPivots(v, c, k - 1);
      PivotStep(s, k);
      SchurBound(r, d, s.CPrime(k - 1));
    }
    assert s.Pivot(k) >= 1.0 + r;
    if k + 1 < |v| - 2 {
      RatioBound(r, s.Pivot(k));
      hide System.Pivot;
    }
  }

  lemma SchurBound(r: real, d: real, cp: real)
    requires r > 0.0 && d >= 0.0 && -1.0 <= cp <= 0.0
    ensures Schur(1.0 + 2.0 * r + d, -r, cp) >= 1.0 + r
  {
    assert (-r) * cp <= r by {
      assert r * (1.0 + cp) >= 0.0;
    }
  }

  lemma RatioBound(r: real, p: real)
    requires r > 0.0 && p >= 1.0 + r
    ensures -1.0 <= Quot(-r, p) <= 0.0
  {
    var q := -r / p;
    assert q * p == -r;
    assert q > 0.0 ==> q * p > 0.0;
    assert q < -1.0 ==> (q + 1.0) * p < 0.0;
  }

  /** The source's step: build the system, solve it, restore the boundary zeros. */
  method CrankNicolsonStep(velocity: seq<real>, hartmann: real, dt: real, dy: real) returns (next: seq<real>)
    requires |velocity| >= 3 && dt > 0.0 && dy > 0.0
    ensures Scheme(dt, dy, Sq(Abs(hartmann))).Valid()
    ensures CnStep(velocity, next, Scheme(dt, dy, Sq(Abs(hartmann))), 1.0)
  {
    var ha := Abs(hartmann);
    SquareNonNegative(ha);
    var c := Scheme(dt, dy, Sq(ha));
    var interior := |velocity| - 2;
    var ratio := c.Ratio();
    var dampingHalf := c.DampingHalf();
    var lower := seq(interior - 1, _ => -ratio);
    var diagonal := seq(interior, _ => 1.0 + 2.0 * ratio + dampingHalf);
    var upper := seq(interior - 1, _ => -ratio);
    var rhs: seq<real> := [];
    for index := 1 to |velocity| - 1
      invariant |rhs| == index - 1
      invariant forall k: nat :: k < |rhs| ==> rhs[k] == StepRhs(velocity, c, k + 1)
    {
      rhs := rhs + [StepRhs(velocity, c, index)];
    }
    ghost var s := StepSystem(velocity, c);
    assert s == System(lower, diagonal, upper, rhs);
    forall k: nat | k < interior ensures s.Pivot(k) >= 1.0 {
      StepPivots(velocity, c, k);
    }
    StepPivots(velocity, c, 0);
    FirstPivotIsDiagonal(s);
    var solved := SolveTridiagonal(lower, diagonal, upper, rhs);
    var solution := solved.value;
    next := [0.0] + solution + [0.0];
    SolutionIsStep(velocity, solution, c);
  }

  lemma FirstPivotIsDiagonal(s: System)
    requires s.Shaped()
    ensures s.Pivot(0) == s.diagonal[0]
  {
  }

  lemma SolutionIsStep(v: seq<real>, x: seq<real>, c: Scheme)
    requires |v| >= 3 && c.Valid() && StepSystem(v, c).Shaped() && StepSystem(v, c).Solution(x)
    ensures CnStep(v, [0.0] + x + [0.0], c, 1.0)
  {
    var u := [0.0] + x + [0.0];
    var s := StepSystem(v, c);
    forall i: nat | 1 <= i < |v| - 1 ensures CnEquation(v, u, c, 1.0, i) {
      assert s.Apply(x, i - 1) == s.rhs[i - 1];
      StepEquationForms(v, u, x, c, i);
    }
  }

  lemma StepEquationForms(v: seq<real>, u: seq<real>, x: seq<real>, c: Scheme, i: nat)
    requires |v| >= 3 && c.Valid() && StepSystem(v, c).Shaped() && |x| == |v| - 2 && u == [0.0] + x + [0.0]
             && 1 <= i < |v| - 1
    ensures StepSystem(v, c).Apply(x, i - 1) == StepSystem(v, c).rhs[i - 1] <==> CnEquation(v, u, c, 1.0, i)
  {
    hide Scheme.Ratio, Scheme.DampingHalf;
    ApplyForm(v, u, x, c, i);
    RowForms(c.Ratio(), u[i - 1], u[i + 1], (1.0 + 2.0 * c.Ratio() + c.DampingHalf()) * u[i]);
  }

  lemma ApplyForm(v: seq<real>, u: seq<real>, x: seq<real>, c: Scheme, i: nat)
    requires |v| >= 3 && c.Valid() && StepSystem(v, c).Shaped() && |x| == |v| - 2 && u == [0.0] + x + [0.0]
             && 1 <= i < |v| - 1
    ensures var r := c.Ratio();
            StepSystem(v, c).Apply(x, i - 1) ==
                (-r) * u[i - 1] + (1.0 + 2.0 * r + c.DampingHalf()) * u[i] + (-r) * u[i + 1]
    ensures StepSystem(v, c).rhs[i - 1] == StepRhs(v, c, i)
  {
    hide Scheme.Ratio, Scheme.DampingHalf, StepRhs;
    assert i - 1 == 0 ==> u[i - 1] == 0.0;
    assert i == |x| ==> u[i + 1] == 0.0;
  }

  lemma RowForms(r: real, west: real, east: real, middle: real)
    ensures (-r) * west + middle + (-r) * east == middle - r * (west + east)
  {
  }

  /** A step is determined by the equations: what the method returns is the only solution. */
  lemma StepIsUnique(v: seq<real>, u: seq<real>, u': seq<real>, c: Scheme)
    requires |v| >= 3 && c.Valid() && CnStep(v, u, c, 1.0) && CnStep(v, u', c, 1.0)
    ensures u == u'
  {
    var s := StepSystem(v, c);
    var x, x' := u[1..|u| - 1], u'[1..|u| - 1];
    forall k: nat | k < |v| - 2 ensures s.Pivot(k) != 0.0 {
      StepPivots(v, c, k);
    }
    StepPivots(v, c, 0);
    StepSolves(v, u, c);
    StepSolves(v, u', c);
    s.SolutionUnique(x, x');
    assert u == [0.0] + x + [0.0] && u' == [0.0] + x' + [0.0];
  }

  lemma StepSolves(v: seq<real>, u: seq<real>, c: Scheme)
    requires |v| >= 3 && c.Valid() && CnStep(v, u, c, 1.0) && StepSystem(v, c).Shaped()
    ensures StepSystem(v, c).Solution(u[1..|u| - 1])
  {
    var x := u[1..|u| - 1];
    assert u == [0.0] + x + [0.0];
    forall k: nat | k < |x| ensures StepSystem(v, c).Apply(x, k) == StepSystem(v, c).rhs[k] {
      assert CnEquation(v, u, c, 1.0, k + 1);
      StepEquationForms(v, u, x, c, k + 1);
    }
  }

  // ----- the energy budget -----

  /** Sum of squares over nodes 1..k. */
  function SquaresTo(v: seq<real>, k: nat): real
    requires k < |v|
  {
    if k == 0 then 0.0 else SquaresTo(v, k - 1) + Sq(v[k])
  }

  function ValuesTo(v: seq<real>, k: nat): real
    requires k < |v|
  {
    if k == 0 then 0.0 else ValuesTo(v, k - 1) + v[k]
  }

  /** Sum of squared steps over the first k intervals. */
  function EdgesTo(v: seq<real>, k: nat): real
    requires k < |v|
  {
    if k == 0 then 0.0 else EdgesTo(v, k - 1) + Sq(v[k] - v[k - 1])
  }

  function KineticEnergy(v: seq<real>, dy: real): real
    requires |v| >= 2
  {
    0.5 * dy * SquaresTo(v, |v| - 2)
  }

  function Midpoint(v: seq<real>, u: seq<real>): (m: seq<real>)
    requires |v| == |u|
    ensures |m| == |v|
  {
    seq(|v|, i requires 0 <= i < |v| => 0.5 * (v[i] + u[i]))
  }

  function ForcingPower(m: seq<real>, dy: real): real
    requires |m| >= 2
  {
    dy * ValuesTo(m, |m| - 2)
  }

  function ViscousPower(m: seq<real>, dy: real): real
    requires |m| >= 2 && dy > 0.0
  {
    EdgesTo(m, |m| - 1) / dy
  }

  function EmPower(m: seq<real>, ha2: real, dy: real): real
    requires |m| >= 2
  {
    ha2 * dy * SquaresTo(m, |m| - 2)
  }

  /** The step in increment form: u - v = 2r m'' - 2d m + g dt at the midpoint m. */
  lemma Increment(v: seq<real>, u: seq<real>, c: Scheme, g: real, i: nat)
    requires c.Valid() && |u| == |v| && 1 <= i < |v| - 1 && CnEquation(v, u, c, g, i)
    ensures var m := Midpoint(v, u);
            u[i] - v[i] == 2.0 * (c.Ratio() * Bend(m, i)) - 2.0 * (c.DampingHalf() * m[i]) + g * c.dt
  {
    var m := Midpoint(v, u);
    var r, d := c.Ratio(), c.DampingHalf();
    var west, here, east := v[i - 1] + u[i - 1], v[i] + u[i], v[i + 1] + u[i + 1];
    assert 2.0 * Bend(m, i) == west - 2.0 * here + east && 2.0 * m[i] == here;
    IncrementAlgebra(r, d, v[i], u[i], v[i - 1] + v[i + 1], u[i - 1] + u[i + 1], Bend(m, i), m[i], g * c.dt);
  }

  lemma IncrementAlgebra(r: real, d: real, v: real, u: real, vs: real, us: real, bend: real, m: real, f: real)
    requires (1.0 + 2.0 * r + d) * u - r * us == (1.0 - 2.0 * r - d) * v + r * vs + f
    requires 2.0 * bend == vs + us - 2.0 * (v + u) && 2.0 * m == v + u
    ensures u - v == 2.0 * (r * bend) - 2.0 * (d * m) + f
  {
    assert u + 2.0 * (r * u) + d * u - r * us == v - 2.0 * (r * v) - d * v + r * vs + f;
    assert 2.0 * (r * bend) == r * (vs + us - 2.0 * (v + u));
    assert r * (vs + us - 2.0 * (v + u)) == r * vs + r * us - 2.0 * (r * v) - 2.0 * (r * u);
    assert 2.0 * (d * m) == d * v + d * u;
  }

  /** What flux, damping and forcing contribute. */
  function Gain(r: real, d: real, f: real, flux: real, squares: real, values: real): real {
    2.0 * (r * flux) - 2.0 * (d * squares) + f * values
  }

  function Flux(here: real, next: real, edges: real): real {
    here * (next - here) - edges
  }

  /** Energy gained on nodes 1..k, with the flux still leaving through node k. */
  lemma {:induction false} BudgetTo(v: seq<real>, u: seq<real>, c: Scheme, g: real, k: nat)
    requires c.Valid() && |v| >= 3 && CnStep(v, u, c, g) && ZeroEnds(v) && k < |v| - 1
    ensures var m := Midpoint(v, u);
            0.5 * (SquaresTo(u, k) - SquaresTo(v, k)) ==
            Gain(c.Ratio(), c.DampingHalf(), g * c.dt, Flux(m[k], m[k + 1], EdgesTo(m, k)), SquaresTo(m, k),
                 ValuesTo(m, k))
  {
    hide Scheme.Ratio, Scheme.DampingHalf, CnEquation, Gain, Flux, Sq;
    var m := Midpoint(v, u);
    if k == 0 {
      NothingGained(c.Ratio(), c.DampingHalf(), g * c.dt, m[1]);
    } else {
      BudgetTo(v, u, c, g, k - 1);
      assert CnEquation(v, u, c, g, k);
      Increment(v, u, c, g, k);
      NodeAlgebra(c.Ratio(), c.DampingHalf(), g * c.dt, v[k], u[k], m[k - 1], m[k], m[k + 1],
                  EdgesTo(m, k - 1), SquaresTo(m, k - 1), ValuesTo(m, k - 1),
                  0.5 * (SquaresTo(u, k - 1) - SquaresTo(v, k - 1)));
    }
  }

  lemma NothingGained(r: real, d: real, f: real, next: real)
    ensures Gain(r, d, f, Flux(0.0, next, 0.0), 0.0, 0.0) == 0.0
  {
  }

  lemma NodeAlgebra(r: real, d: real, f: real, v: real, u: real, m0: real, m1: real, m2: real,
                    edges: real, squares: real, values: real, gained: real)
    requires 2.0 * m1 == v + u && u - v == 2.0 * (r * (m0 - 2.0 * m1 + m2)) - 2.0 * (d * m1) + f
    requires gained == Gain(r, d, f, Flux(m0, m1, edges), squares, values)
    ensures gained + 0.5 * (Sq(u) - Sq(v)) ==
            Gain(r, d, f, Flux(m1, m2, edges + Sq(m1 - m0)), squares + Sq(m1), values + m1)
  {
    assert 0.5 * (u * u - v * v) == m1 * (u - v) by {
      assert u * u - v * v == (v + u) * (u - v);
    }
    var bend := m0 - 2.0 * m1 + m2;
    assert m1 * (u - v) == 2.0 * (r * (m1 * bend)) - 2.0 * (d * (m1 * m1)) + f * m1;
    var before, after := m0 * (m1 - m0) - edges, m1 * (m2 - m1) - (edges + (m1 - m0) * (m1 - m0));
    assert before + m1 * bend == after;
    assert r * before + r * (m1 * bend) == r * after;
    assert d * squares + d * (m1 * m1) == d * (squares + m1 * m1);
    assert f * values + f * m1 == f * (values + m1);
  }

  /** Exact discrete energy budget of one step: change = dt (forcing - viscous - electromagnetic power). */
  lemma StepEnergyBudget(v: seq<real>, u: seq<real>, c: Scheme, g: real)
    requires c.Valid() && |v| >= 3 && CnStep(v, u, c, g) && ZeroEnds(v)
    ensures KineticEnergy(u, c.dy) - KineticEnergy(v, c.dy) == Budget(Midpoint(v, u), c, g)
  {
    hide Gain, Scheme.Ratio, Scheme.DampingHalf, SquaresTo, ValuesTo, Sq;
    var m := Midpoint(v, u);
    var k := |v| - 2;
    BudgetTo(v, u, c, g, k);
    assert m[k + 1] == 0.0;
    LastEdge(m, EdgesTo(m, k));
    RatioTimesSpacing(c);
    BudgetAlgebra(c, g, SquaresTo(u, k), SquaresTo(v, k), EdgesTo(m, k + 1), SquaresTo(m, k), ValuesTo(m, k));
  }

  /** Time step times (forcing power - viscous power - electromagnetic power) at the midpoint. */
  function Budget(m: seq<real>, c: Scheme, g: real): real
    requires |m| >= 3 && c.dy > 0.0
  {
    Product(c.dt, g * ForcingPower(m, c.dy) - ViscousPower(m, c.dy) - EmPower(m, c.ha2, c.dy))
  }

  lemma LastEdge(m: seq<real>, edges: real)
    requires |m| >= 3 && m[|m| - 1] == 0.0
    ensures Flux(m[|m| - 2], 0.0, edges) == -(edges + Sq(m[|m| - 1] - m[|m| - 2]))
  {
    var x := m[|m| - 2];
    assert x * (0.0 - x) == -((0.0 - x) * (0.0 - x));
  }

  lemma RatioTimesSpacing(c: Scheme)
    requires c.Valid()
    ensures 2.0 * c.Ratio() * c.dy == c.dt / c.dy
  {
    var y2 := 2.0 * c.dy * c.dy;
    ProductOfPositives(c.dy, c.dy);
    assert y2 == 2.0 * Product(c.dy, c.dy);
    var r := c.dt / y2;
    assert r * y2 == c.dt;
    var z := 2.0 * r * c.dy;
    assert z * c.dy == c.dt;
    assert z == (z * c.dy) / c.dy;
  }

  lemma BudgetAlgebra(c: Scheme, g: real, su: real, sv: real, edges: real, squares: real, values: real)
    requires c.Valid() && 2.0 * c.Ratio() * c.dy == c.dt / c.dy
    requires 0.5 * (su - sv) == Gain(c.Ratio(), c.DampingHalf(), g * c.dt, -edges, squares, values)
    ensures 0.5 * c.dy * su - 0.5 * c.dy * sv ==
            c.dt * (g * (c.dy * values) - edges / c.dy - c.ha2 * c.dy * squares)
  {
    var r, dy, dt := c.Ratio(), c.dy, c.dt;
    hide Scheme.Ratio;
    assert 0.5 * dy * su - 0.5 * dy * sv == dy * (0.5 * (su - sv));
    assert dy * (2.0 * (r * (-edges))) == -((2.0 * r * dy) * edges);
    assert (dt / dy) * edges == dt * (edges / dy);
    assert dy * (2.0 * (c.DampingHalf() * squares)) == dt * (c.ha2 * dy * squares);
    assert dy * ((g * dt) * values) == dt * (g * (dy * values));
  }

  lemma {:induction false} SquaresNonNegative(v: seq<real>, k: nat)
    requires k < |v|
    ensures SquaresTo(v, k) >= 0.0
    ensures SquaresTo(v, k) == 0.0 ==> forall i: nat :: 1 <= i <= k ==> v[i] == 0.0
  {
    hide Sq;
    if k == 0 {
    } else {
      SquaresNonNegative(v, k - 1);
      SquareNonNegative(v[k]);
    }
  }

  lemma {:induction false} EdgesNonNegative(v: seq<real>, k: nat)
    requires k < |v|
    ensures EdgesTo(v, k) >= 0.0
    ensures EdgesTo(v, k) == 0.0 ==> forall i: nat :: i <= k ==> v[i] == v[0]
  {
    hide Sq;
    if k == 0 {
    } else {
      EdgesNonNegative(v, k - 1);
      SquareNonNegative(v[k] - v[k - 1]);
    }
  }

  lemma SinksNonNegative(m: seq<real>, c: Scheme)
    requires |m| >= 3 && c.Valid()
    ensures ViscousPower(m, c.dy) >= 0.0 && EmPower(m, c.ha2, c.dy) >= 0.0
  {
    EdgesNonNegative(m, |m| - 1);
    SquaresNonNegative(m, |m| - 2);
    var e := EdgesTo(m, |m| - 1);
    assert e == 0.0 ==> e / c.dy == 0.0;
    if e > 0.0 { PositiveQuotient(e, c.dy); }
    NonNegativeFactors(c.ha2, c.dy, SquaresTo(m, |m| - 2));
    hide SquaresTo, EdgesTo;
  }

  lemma NonNegativeFactors(x: real, y: real, z: real)
    requires x >= 0.0 && y >= 0.0 && z >= 0.0
    ensures x * y * z >= 0.0
  {
    var p := x * y;
    assert p >= 0.0;
    assert p * z >= 0.0;
  }

  // ----- whole runs -----

  ghost predicate IsRun(trace: seq<seq<real>>, c: Scheme)
    requires c.Valid()
  {
    && |trace| >= 1
    && (forall k: nat :: k < |trace| ==> ZeroEnds(trace[k]) && |trace[k]| == |trace[0]|)
    && forall k: nat :: k + 1 < |trace| ==> CnStep(trace[k], trace[k + 1], c, 1.0)
  }

  /** Work and dissipation accumulated over the first `k` steps of a run. */
  datatype Ledger = Ledger(work: real, viscous: real, em: real)

  function LedgerTo(trace: seq<seq<real>>, c: Scheme, k: nat): Ledger
    requires k < |trace| && c.dy > 0.0
    requires forall i: nat :: i < |trace| ==> |trace[i]| == |trace[0]| && |trace[i]| >= 3
  {
    if k == 0 then Ledger(0.0, 0.0, 0.0) else
      var l := LedgerTo(trace, c, k - 1);
      var m := Midpoint(trace[k - 1], trace[k]);
      Ledger(l.work + Product(c.dt, ForcingPower(m, c.dy)), l.viscous + Product(c.dt, ViscousPower(m, c.dy)),
             l.em + Product(c.dt, EmPower(m, c.ha2, c.dy)))
  }

  /** Cumulative budget: along every run, energy change is work minus both dissipations, which never decrease. */
  lemma {:induction false} RunEnergyBudget(trace: seq<seq<real>>, c: Scheme, k: nat)
    requires c.Valid() && IsRun(trace, c) && k < |trace|
    ensures var l := LedgerTo(trace, c, k);
            && KineticEnergy(trace[k], c.dy) - KineticEnergy(trace[0], c.dy) == l.work - l.viscous - l.em
            && l.viscous >= 0.0 && l.em >= 0.0
  {
    if k == 0 {
    } else {
      RunEnergyBudget(trace, c, k - 1);
      StepEnergyBudget(trace[k - 1], trace[k], c, 1.0);
      var m := Midpoint(trace[k - 1], trace[k]);
      SinksNonNegative(m, c);
      hide ForcingPower, ViscousPower, EmPower, KineticEnergy, CnStep;
      SplitBudget(c.dt, ForcingPower(m, c.dy), ViscousPower(m, c.dy), EmPower(m, c.ha2, c.dy));
    }
  }

  lemma SplitBudget(dt: real, f: real, v: real, e: real)
    requires dt > 0.0 && v >= 0.0 && e >= 0.0
    ensures Product(dt, 1.0 * f - v - e) == Product(dt, f) - Product(dt, v) - Product(dt, e)
    ensures Product(dt, v) >= 0.0 && Product(dt, e) >= 0.0
  {
  }

  datatype RunReport = RunReport(kineticFinal: real, work: real, viscous: real, em: real, residual: real,
                                 maxStepResidual: real)

  /** The source's run: the two reported budget residuals are exactly zero for every input. */
  method IntegrateTransientHartmann(hartmann: real, gridSize: int, dt: real, finalTime: real)
    returns (r: Result<(seq<real>, real, nat, RunReport), string>, ghost trace: seq<seq<real>>, ghost c: Scheme)
    ensures r.Success? <==> gridSize >= 5 && gridSize % 2 == 1 && dt > 0.0 && finalTime > 0.0
    ensures r.Success? ==>
              var (velocity, effectiveDt, steps, report) := r.value;
              && steps == StepCount(finalTime, dt) && NearestCount(steps, finalTime, dt)
              && effectiveDt == finalTime / (steps as real)
              && c == Scheme(effectiveDt, 2.0 / ((gridSize - 1) as real), Sq(Abs(hartmann))) && c.Valid()
              && |trace| == steps + 1 && IsRun(trace, c)
              && trace[0] == seq(gridSize, _ => 0.0) && trace[steps] == velocity
              && report == RunReport(KineticEnergy(velocity, c.dy), LedgerTo(trace, c, steps).work,
                                     LedgerTo(trace, c, steps).viscous, LedgerTo(trace, c, steps).em, 0.0, 0.0)
  {
    hide CnStep, ForcingPower, ViscousPower, EmPower, Sq, Product, KineticEnergy, LedgerTo, Budget, NearestCount;
    trace, c := [], Scheme(0.0, 0.0, 0.0);
    if gridSize < 5 || gridSize % 2 == 0 {
      r := Failure("transient Hartmann reference requires an odd grid_size >= 5");
      return;
    }
    if dt <= 0.0 || finalTime <= 0.0 {
      r := Failure("dt and final_time must be positive");
      return;
    }
    var rounded := RoundHalfEven(finalTime / dt);
    var steps: nat := if rounded < 1 then 1 else rounded;
    StepCountIsNearest(finalTime, dt);
    var effectiveDt := finalTime / (steps as real);
    PositiveQuotient(finalTime, steps as real);
    var dy := 2.0 / ((gridSize - 1) as real);
    PositiveQuotient(2.0, (gridSize - 1) as real);
    SquareNonNegative(Abs(hartmann));
    var scheme := Scheme(effectiveDt, dy, Sq(Abs(hartmann)));
    c := scheme;
    var velocity: seq<real> := seq(gridSize, _ => 0.0);
    trace := [velocity];
    StartRun(velocity, c);
    var work, viscous, em, maxStep := 0.0, 0.0, 0.0, 0.0;
    var initial := KineticEnergy(velocity, dy);
    for taken := 0 to steps
      invariant |trace| == taken + 1 && IsRun(trace, c) && trace[0] == seq(gridSize, _ => 0.0)
                && trace[taken] == velocity
      invariant Ledger(work, viscous, em) == LedgerTo(trace, c, taken)
      invariant maxStep == 0.0
    {
      var next, forcing, friction, drag, residual := MeasuredStep(velocity, hartmann, scheme);
      maxStep := if residual > maxStep then residual else maxStep;
      work := work + Product(effectiveDt, forcing);
      viscous := viscous + Product(effectiveDt, friction);
      em := em + Product(effectiveDt, drag);
      ExtendRun(trace, next, scheme);
      trace := trace + [next];
      NextLedger(trace, scheme, taken + 1);
      velocity := next;
    }
    var final := KineticEnergy(velocity, dy);
    RunEnergyBudget(trace, c, steps);
    var cumulative := Abs((final - initial) - (work - viscous - em));
    r := Success((velocity, effectiveDt, steps, RunReport(final, work, viscous, em, cumulative, maxStep)));
  }

  /** One step of the run with its three powers and its budget residual. */
  method MeasuredStep(velocity: seq<real>, hartmann: real, c: Scheme)
    returns (next: seq<real>, forcing: real, friction: real, drag: real, residual: real)
    requires c.Valid() && ZeroEnds(velocity) && c.ha2 == Sq(Abs(hartmann))
    ensures CnStep(velocity, next, c, 1.0) && |next| == |velocity| && ZeroEnds(next)
    ensures var m := Midpoint(velocity, next);
            forcing == ForcingPower(m, c.dy) && friction == ViscousPower(m, c.dy) && drag == EmPower(m, c.ha2, c.dy)
    ensures residual == 0.0
  {
    hide ForcingPower, ViscousPower, EmPower, Sq, Product, KineticEnergy;
    next := CrankNicolsonStep(velocity, hartmann, c.dt, c.dy);
    StepKeepsShape(velocity, next, c);
    var m := Midpoint(velocity, next);
    forcing, friction, drag := ForcingPower(m, c.dy), ViscousPower(m, c.dy), EmPower(m, c.ha2, c.dy);
    residual := Abs((KineticEnergy(next, c.dy) - KineticEnergy(velocity, c.dy))
                    - Product(c.dt, forcing - friction - drag));
    StepResidualIsZero(velocity, next, c);
  }

  lemma StartRun(v: seq<real>, c: Scheme)
    requires c.Valid() && ZeroEnds(v)
    ensures IsRun([v], c) && LedgerTo([v], c, 0) == Ledger(0.0, 0.0, 0.0)
  {
  }

  lemma NextLedger(trace: seq<seq<real>>, c: Scheme, k: nat)
    requires c.Valid() && IsRun(trace, c) && 1 <= k < |trace|
    ensures var l, m := LedgerTo(trace, c, k - 1), Midpoint(trace[k - 1], trace[k]);
            LedgerTo(trace, c, k) ==
            Ledger(l.work + Product(c.dt, ForcingPower(m, c.dy)), l.viscous + Product(c.dt, ViscousPower(m, c.dy)),
                   l.em + Product(c.dt, EmPower(m, c.ha2, c.dy)))
  {
    hide CnStep, Product;
  }

  lemma StepResidualIsZero(v: seq<real>, u: seq<real>, c: Scheme)
    requires c.Valid() && |v| >= 3 && CnStep(v, u, c, 1.0) && ZeroEnds(v)
    ensures |u| == |v|
    ensures var m := Midpoint(v, u);
            Abs((KineticEnergy(u, c.dy) - KineticEnergy(v, c.dy))
                - Product(c.dt, ForcingPower(m, c.dy) - ViscousPower(m, c.dy) - EmPower(m, c.ha2, c.dy))) == 0.0
  {
    StepEnergyBudget(v, u, c, 1.0);
    hide KineticEnergy, ForcingPower, ViscousPower, EmPower, Product;
  }

  lemma StepKeepsShape(v: seq<real>, u: seq<real>, c: Scheme)
    requires c.Valid() && CnStep(v, u, c, 1.0)
    ensures |u| == |v| && ZeroEnds(u)
  {
  }

  lemma ExtendRun(trace: seq<seq<real>>, next: seq<real>, c: Scheme)
    requires c.Valid() && IsRun(trace, c) && CnStep(trace[|trace| - 1], next, c, 1.0) && ZeroEnds(next)
             && |next| == |trace[0]|
    ensures IsRun(trace + [next], c)
    ensures forall k: nat :: k < |trace| ==> LedgerTo(trace + [next], c, k) == LedgerTo(trace, c, k)
  {
    hide CnStep;
    var longer := trace + [next];
    forall k: nat | k + 1 < |longer| ensures CnStep(longer[k], longer[k + 1], c, 1.0) {
      if k + 1 < |trace| {
        assert CnStep(trace[k], trace[k + 1], c, 1.0);
      }
    }
    forall k: nat | k < |trace| ensures LedgerTo(longer, c, k) == LedgerTo(trace, c, k) {
      LedgerPrefix(trace, longer, c, k);
    }
  }

  lemma {:induction false} LedgerPrefix(trace: seq<seq<real>>, longer: seq<seq<real>>, c: Scheme, k: nat)
    requires c.Valid() && IsRun(trace, c) && k < |trace| <= |longer| && trace == longer[..|trace|]
    requires forall i: nat :: i < |longer| ==> |longer[i]| == |longer[0]| && |longer[i]| >= 3
    ensures LedgerTo(longer, c, k) == LedgerTo(trace, c, k)
  {
    hide ForcingPower, ViscousPower, EmPower, CnStep;
    if k == 0 {
    } else {
      LedgerPrefix(trace, longer, c, k - 1);
      assert trace[k] == longer[k] && trace[k - 1] == longer[k - 1];
    }
  }

  // ----- the steady profile -----

  /** The steady discrete equation: second difference over dy^2, minus damping, equals -1. */
  ghost predicate Steady(s: seq<real>, dy: real, ha2: real)
    requires dy > 0.0
  {
    ZeroEnds(s) && forall i: nat :: 1 <= i < |s| - 1 ==> SteadyAt(s, dy, ha2, i)
  }

  ghost predicate SteadyAt(s: seq<real>, dy: real, ha2: real, i: nat)
    requires dy > 0.0 && 1 <= i < |s| - 1
  {
    Bend(s, i) == Sq(dy) * (ha2 * s[i] - 1.0)
  }

  /** A profile is steady exactly when the Crank-Nicolson step, with any time step, leaves it in place. */
  lemma SteadyIffFixedPoint(s: seq<real>, c: Scheme)
    requires c.Valid() && ZeroEnds(s)
    ensures Steady(s, c.dy, c.ha2) <==> CnStep(s, s, c, 1.0)
  {
    forall i: nat | 1 <= i < |s| - 1 ensures SteadyAt(s, c.dy, c.ha2, i) <==> CnEquation(s, s, c, 1.0, i) {
      RatioDefinition(c);
      FixedPointAlgebra(c.Ratio(), c.DampingHalf(), c.dt, Sq(c.dy), c.ha2, s[i], s[i - 1] + s[i + 1], Bend(s, i));
      hide Scheme.Ratio, Scheme.DampingHalf, Sq;
    }
    if CnStep(s, s, c, 1.0) {
      forall i: nat | 1 <= i < |s| - 1 ensures SteadyAt(s, c.dy, c.ha2, i) {
        assert CnEquation(s, s, c, 1.0, i);
      }
    }
    if Steady(s, c.dy, c.ha2) {
      forall i: nat | 1 <= i < |s| - 1 ensures CnEquation(s, s, c, 1.0, i) {
        assert SteadyAt(s, c.dy, c.ha2, i);
      }
    }
  }

  lemma RatioDefinition(c: Scheme)
    requires c.Valid()
    ensures 2.0 * (c.Ratio() * Sq(c.dy)) == c.dt && 2.0 * c.DampingHalf() == c.dt * c.ha2 && Sq(c.dy) > 0.0
  {
    ProductOfPositives(c.dy, c.dy);
    var y2 := 2.0 * c.dy * c.dy;
    assert y2 == 2.0 * Sq(c.dy);
    var r := c.dt / y2;
    assert r * y2 == c.dt;
  }

  lemma FixedPointAlgebra(r: real, d: real, dt: real, y2: real, ha2: real, s: real, sides: real, bend: real)
    requires 2.0 * (r * y2) == dt && 2.0 * d == dt * ha2 && dt > 0.0 && y2 > 0.0 && bend == sides - 2.0 * s
    ensures bend == y2 * (ha2 * s - 1.0) <==>
            (1.0 + 2.0 * r + d) * s - r * sides == (1.0 - 2.0 * r - d) * s + r * sides + 1.0 * dt
  {
    var gap := bend - y2 * (ha2 * s - 1.0);
    // difference of the two sides of the step equation
    var diff := ((1.0 + 2.0 * r + d) * s - r * sides) - ((1.0 - 2.0 * r - d) * s + r * sides + dt);
    assert diff == 4.0 * (r * s) + 2.0 * (d * s) - 2.0 * (r * sides) - dt;
    assert 2.0 * (r * bend) == 2.0 * (r * sides) - 4.0 * (r * s);
    assert 2.0 * (d * s) == dt * (ha2 * s);
    assert diff == -2.0 * (r * bend) + dt * (ha2 * s - 1.0);
    assert dt * (ha2 * s - 1.0) == 2.0 * (r * (y2 * (ha2 * s - 1.0)));
    assert diff == -2.0 * (r * gap);
    assert r > 0.0 by {
      assert r <= 0.0 ==> r * y2 <= 0.0;
    }
    assert gap != 0.0 ==> r * gap != 0.0;
  }

  function Difference(v: seq<real>, s: seq<real>): (d: seq<real>)
    requires |v| == |s|
    ensures |d| == |v|
  {
    seq(|v|, i requires 0 <= i < |v| => v[i] - s[i])
  }

  /** The error against a fixed point obeys the unforced scheme. */
  lemma ErrorStep(v: seq<real>, u: seq<real>, s: seq<real>, c: Scheme)
    requires c.Valid() && |v| == |s| && CnStep(v, u, c, 1.0) && CnStep(s, s, c, 1.0)
    ensures CnStep(Difference(v, s), Difference(u, s), c, 0.0)
  {
    var e, f := Difference(v, s), Difference(u, s);
    forall i: nat | 1 <= i < |v| - 1 ensures CnEquation(e, f, c, 0.0, i) {
      assert CnEquation(v, u, c, 1.0, i) && CnEquation(s, s, c, 1.0, i);
      hide Scheme.Ratio, Scheme.DampingHalf;
      SubtractEquations(c.Ratio(), c.DampingHalf(), c.dt, v[i], u[i], s[i], v[i - 1], v[i + 1], u[i - 1], u[i + 1],
                        s[i - 1], s[i + 1]);
    }
  }

  lemma SubtractEquations(r: real, d: real, dt: real, v: real, u: real, s: real,
                          vw: real, ve: real, uw: real, ue: real, sw: real, se: real)
    requires (1.0 + 2.0 * r + d) * u - r * (uw + ue) == (1.0 - 2.0 * r - d) * v + r * (vw + ve) + 1.0 * dt
    requires (1.0 + 2.0 * r + d) * s - r * (sw + se) == (1.0 - 2.0 * r - d) * s + r * (sw + se) + 1.0 * dt
    ensures (1.0 + 2.0 * r + d) * (u - s) - r * ((uw - sw) + (ue - se)) ==
            (1.0 - 2.0 * r - d) * (v - s) + r * ((vw - sw) + (ve - se)) + 0.0 * dt
  {
    var a, b := 1.0 + 2.0 * r + d, 1.0 - 2.0 * r - d;
    assert a * (u - s) == a * u - a * s && b * (v - s) == b * v - b * s;
    assert r * ((uw - sw) + (ue - se)) == r * (uw + ue) - r * (sw + se);
    assert r * ((vw - sw) + (ve - se)) == r * (vw + ve) - r * (sw + se);
  }

  /** Sum of squared nodal differences. */
  function Distance(v: seq<real>, s: seq<real>): real
    requires |v| == |s| >= 3
  {
    SquaresTo(Difference(v, s), |v| - 2)
  }

  /** A step never moves away from the steady profile, and keeps its distance only if it started there. */
  lemma StepApproachesSteady(v: seq<real>, u: seq<real>, s: seq<real>, c: Scheme)
    requires c.Valid() && |v| == |s| && ZeroEnds(v) && Steady(s, c.dy, c.ha2) && CnStep(v, u, c, 1.0)
    ensures Distance(u, s) <= Distance(v, s)
    ensures Distance(u, s) == Distance(v, s) ==> v == s
  {
    SteadyIffFixedPoint(s, c);
    ErrorStep(v, u, s, c);
    var e, f := Difference(v, s), Difference(u, s);
    var m := Midpoint(e, f);
    StepEnergyBudget(e, f, c, 0.0);
    SinksNonNegative(m, c);
    var k := |v| - 2;
    hide ForcingPower, ViscousPower, EmPower, SquaresTo, CnStep, Steady;
    UnforcedLoss(c.dt, c.dy, ViscousPower(m, c.dy), EmPower(m, c.ha2, c.dy), ForcingPower(m, c.dy), SquaresTo(f, k),
                 SquaresTo(e, k));
    if Distance(u, s) == Distance(v, s) {
      NoLossMeansSteady(v, u, s, c);
    }
  }

  lemma UnforcedLoss(dt: real, dy: real, visc: real, em: real, forcing: real, after: real, before: real)
    requires dt > 0.0 && dy > 0.0 && visc >= 0.0 && em >= 0.0
    requires 0.5 * dy * after - 0.5 * dy * before == Product(dt, 0.0 * forcing - visc - em)
    ensures after <= before && (after == before ==> visc == 0.0)
  {
    assert 0.5 * dy * after - 0.5 * dy * before == (0.5 * dy) * (after - before);
    assert dt * (visc + em) >= 0.0;
    assert after > before ==> (0.5 * dy) * (after - before) > 0.0;
    assert visc > 0.0 ==> dt * (visc + em) > 0.0;
  }

  lemma NoLossMeansSteady(v: seq<real>, u: seq<real>, s: seq<real>, c: Scheme)
    requires c.Valid() && |v| == |s| && ZeroEnds(v) && ZeroEnds(s) && CnStep(v, u, c, 1.0) && CnStep(s, s, c, 1.0)
    requires ViscousPower(Midpoint(Difference(v, s), Difference(u, s)), c.dy) == 0.0
    ensures v == s
  {
    var e, f := Difference(v, s), Difference(u, s);
    var m := Midpoint(e, f);
    ErrorStep(v, u, s, c);
    EdgesNonNegative(m, |m| - 1);
    var edges := EdgesTo(m, |m| - 1);
    assert edges == 0.0 by {
      if edges > 0.0 { PositiveQuotient(edges, c.dy); }
    }
    assert m[0] == 0.0;
    forall i: nat | i < |v| ensures v[i] == s[i] {
      if 1 <= i < |v| - 1 {
        assert m[i] == 0.0 && m[i - 1] == 0.0 && m[i + 1] == 0.0;
        assert CnEquation(e, f, c, 0.0, i);
        Increment(e, f, c, 0.0, i);
        assert Bend(m, i) == 0.0;
        assert f[i] == e[i];
      }
    }
  }

  /** Along every run the distance to the steady profile is non-increasing. */
  lemma {:induction false} RunApproachesSteady(trace: seq<seq<real>>, s: seq<real>, c: Scheme, i: nat, j: nat)
    requires c.Valid() && IsRun(trace, c) && i <= j < |trace| && |s| == |trace[0]| && Steady(s, c.dy, c.ha2)
    ensures Distance(trace[j], s) <= Distance(trace[i], s)
    decreases j
  {
    hide Distance, CnStep, Steady;
    if i == j {
    } else {
      RunApproachesSteady(trace, s, c, i, j - 1);
      StepApproachesSteady(trace[j - 1], trace[j], s, c);
    }
  }
}
