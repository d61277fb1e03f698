/** The in-place successive over-relaxation solver of the periodic five-point Poisson equation.
    Every point update lowers one quadratic functional by an exact amount. */
module Sor {
  import opened Grid
  import opened RealArith
  import opened Mhd
  import opened MhdStates
  import opened Poisson

  // ----- one unit spike -----

  function Spike(p: nat, q: nat, n: nat): Field {
    Tabulate(n, (i: nat, j: nat) => if i == p && j == q then 1.0 else 0.0)
  }

  lemma {:induction false} SumSingle(s: seq<real>, q: nat)
    requires q < |s| && forall j :: 0 <= j < |s| && j != q ==> s[j] == 0.0
    ensures Sum(s) == s[q]
  {
    if q == 0 {
      SumOfZeros(s[1..]);
    } else {
      SumSingle(s[1..], q - 1);
    }
  }

  lemma {:induction false} SumOfZeros(s: seq<real>)
    requires forall j :: 0 <= j < |s| ==> s[j] == 0.0
    ensures Sum(s) == 0.0
  {
    if s == [] {
    } else {
      SumOfZeros(s[1..]);
    }
  }

  lemma {:induction false} TotalSingle(f: Field, p: nat)
    requires p < |f| && forall i :: 0 <= i < |f| && i != p ==> Sum(f[i]) == 0.0
    ensures Total(f) == Sum(f[p])
  {
    if p == 0 {
      TotalOfZeros(f[1..]);
    } else {
      TotalSingle(f[1..], p - 1);
    }
  }

  lemma {:induction false} TotalOfZeros(f: Field)
    requires forall i :: 0 <= i < |f| ==> Sum(f[i]) == 0.0
    ensures Total(f) == 0.0
  {
    if f == [] {
    } else {
      TotalOfZeros(f[1..]);
    }
  }

  /** A spike samples the other factor. */
  lemma DotSpike(g: Field, p: nat, q: nat, n: nat)
    requires p < n && q < n
    ensures Dot(Spike(p, q, n), g, n) == At(g, p, q)
  {
    var f := Times(Spike(p, q, n), g, n);
    forall i | 0 <= i < n
      ensures i != p ==> Sum(f[i]) == 0.0
      ensures i == p ==> Sum(f[i]) == At(g, p, q)
    {
      forall j | 0 <= j < n ensures f[i][j] == if i == p && j == q then At(g, p, q) else 0.0 {
        assert At(f, i, j) == Product(At(Spike(p, q, n), i, j), At(g, i, j));
      }
      if i == p {
        SumSingle(f[i], q);
      } else {
        SumOfZeros(f[i]);
      }
    }
    TotalSingle(f, p);
  }

  // ----- the functional -----

  /** Half the squared steps minus the load: the functional whose stationary points solve the equation. */
  function Functional(psi: Field, omega: Field, dx2: real, n: nat): real {
    0.5 * Steps(psi, n) - dx2 * Dot(omega, psi, n)
  }

  /** The average the point update relaxes towards. */
  function Target(psi: Field, omega: Field, dx2: real, n: nat, i: nat, j: nat): real
    requires i < n && j < n
  {
    0.25 * (At(psi, Next(i, n), j) + At(psi, Prev(i, n), j) + At(psi, i, Next(j, n)) + At(psi, i, Prev(j, n))
            + dx2 * At(omega, i, j))
  }

  lemma LaplacianIsLinear(f: Field, t: real, g: Field, h2: real, n: nat)
    requires h2 > 0.0
    ensures Laplacian(Combine(1.0, f, t, g, n), h2, n) == Combine(1.0, Laplacian(f, h2, n), t, Laplacian(g, h2, n), n)
  {
    var k := Combine(1.0, f, t, g, n);
    var rhs := Combine(1.0, Laplacian(f, h2, n), t, Laplacian(g, h2, n), n);
    forall i: nat, j: nat | i < n && j < n ensures At(Laplacian(k, h2, n), i, j) == At(rhs, i, j) {
      FivePointIsLinear(f, t, g, n, i, j);
      DivideLinear(FivePoint(f, n, i, j), t, FivePoint(g, n, i, j), h2);
      hide FivePoint;
    }
    FieldEquality(Laplacian(k, h2, n), rhs, n);
  }

  lemma FivePointIsLinear(f: Field, t: real, g: Field, n: nat, i: nat, j: nat)
    requires i < n && j < n
    ensures FivePoint(Combine(1.0, f, t, g, n), n, i, j) == Lin(1.0, FivePoint(f, n, i, j), t, FivePoint(g, n, i, j))
  {
    var a, b, c, d, e := At(g, Next(i, n), j), At(g, Prev(i, n), j), At(g, i, Next(j, n)), At(g, i, Prev(j, n)),
                         At(g, i, j);
    assert t * (a + b + c + d - 4.0 * e) == t * a + t * b + t * c + t * d - 4.0 * (t * e);
  }

  lemma DivideLinear(x: real, t: real, y: real, h2: real)
    requires h2 > 0.0
    ensures Lin(1.0, x, t, y) / h2 == Lin(1.0, x / h2, t, y / h2)
  {
    var q := 1.0 / h2;
    assert x / h2 == x * q && y / h2 == y * q;
    assert (x + t * y) / h2 == (x + t * y) * q;
    assert (t * y) * q == t * (y * q);
  }

  /** The Dirichlet form along a line, by symmetry of the operator. */
  lemma StepsAlongLine(f: Field, t: real, g: Field, h2: real, n: nat)
    requires h2 > 0.0 && n > 0
    ensures Steps(Combine(1.0, f, t, g, n), n) ==
            Steps(f, n) - 2.0 * (t * (h2 * Dot(g, Laplacian(f, h2, n), n))) + (t * t) * Steps(g, n)
  {
    hide Dot, Laplacian, Steps, Combine;
    var k := Combine(1.0, f, t, g, n);
    var lf, lg := Laplacian(f, h2, n), Laplacian(g, h2, n);
    DirichletForm(k, h2, n);
    DirichletForm(f, h2, n);
    DirichletForm(g, h2, n);
    LaplacianIsLinear(f, t, g, h2, n);
    DotCombine(k, 1.0, lf, t, lg, n);
    DotCommutes(k, lf, n);
    DotCommutes(k, lg, n);
    DotCombine(lf, 1.0, f, t, g, n);
    DotCombine(lg, 1.0, f, t, g, n);
    DotCommutes(lf, f, n);
    DotCommutes(lf, g, n);
    DotCommutes(lg, f, n);
    DotCommutes(lg, g, n);
    LaplacianIsSymmetric(f, g, h2, n);
    LineAlgebra(Dot(f, lf, n), Dot(g, lf, n), Dot(g, lg, n), Dot(k, Laplacian(k, h2, n), n), Dot(k, lf, n),
                Dot(k, lg, n), t, h2, Steps(f, n), Steps(g, n), Steps(k, n));
  }

  lemma LineAlgebra(ff: real, gf: real, gg: real, kk: real, kf: real, kg: real, t: real, h2: real,
                    sf: real, sg: real, sk: real)
    requires kk == Lin(1.0, kf, t, kg) && kf == Lin(1.0, ff, t, gf) && kg == Lin(1.0, gf, t, gg)
    requires h2 * ff == -sf && h2 * gg == -sg && h2 * kk == -sk
    ensures sk == sf - 2.0 * (t * (h2 * gf)) + (t * t) * sg
  {
    assert kk == ff + 2.0 * (t * gf) + (t * t) * gg;
    assert h2 * kk == h2 * ff + 2.0 * (t * (h2 * gf)) + (t * t) * (h2 * gg);
  }

  lemma SpikeLaplacian(p: nat, q: nat, n: nat)
    requires n >= 2 && p < n && q < n
    ensures At(Laplacian(Spike(p, q, n), 1.0, n), p, q) == -4.0
  {
    var e := Spike(p, q, n);
    assert FivePoint(e, n, p, q) == -4.0;
  }

  lemma SpikeSteps(p: nat, q: nat, n: nat)
    requires n >= 2 && p < n && q < n
    ensures Steps(Spike(p, q, n), n) == 4.0
  {
    hide Dot, Steps, Laplacian, Spike;
    var e := Spike(p, q, n);
    DirichletForm(e, 1.0, n);
    DotSpike(Laplacian(e, 1.0, n), p, q, n);
    SpikeLaplacian(p, q, n);
  }

  /** Distance from the point value to its relaxation target. */
  function Residual(psi: Field, omega: Field, dx2: real, n: nat, p: nat, q: nat): real
    requires p < n && q < n
  {
    Target(psi, omega, dx2, n, p, q) - At(psi, p, q)
  }

  /** The field after relaxing one point. */
  function Relaxed(psi: Field, omega: Field, dx2: real, w: real, n: nat, p: nat, q: nat): Field
    requires p < n && q < n
  {
    Combine(1.0, psi, Product(w, Residual(psi, omega, dx2, n, p, q)), Spike(p, q, n), n)
  }

  /** 2 w (2 - w) d^2 */
  function Drop(w: real, d: real): real {
    2.0 * (w * (2.0 - w)) * (d * d)
  }

  /** One relaxation of one point lowers the functional by exactly 2 w (2 - w) (target - psi)^2. */
  lemma PointUpdateDescent(psi: Field, omega: Field, dx2: real, w: real, n: nat, p: nat, q: nat)
    requires dx2 > 0.0 && n >= 2 && p < n && q < n
    ensures Functional(Relaxed(psi, omega, dx2, w, n, p, q), omega, dx2, n) ==
            Functional(psi, omega, dx2, n) - Drop(w, Residual(psi, omega, dx2, n, p, q))
  {
    hide Dot, Laplacian, Steps, Combine, Spike, FivePoint, Target, Product, Drop;
    var d := Residual(psi, omega, dx2, n, p, q);
    var t := Product(w, d);
    var e := Spike(p, q, n);
    StepsAlongLine(psi, t, e, dx2, n);
    SpikeSteps(p, q, n);
    DotSpike(Laplacian(psi, dx2, n), p, q, n);
    DotSpike(omega, p, q, n);
    DotCommutes(omega, e, n);
    DotCombine(omega, 1.0, psi, t, e, n);
    TargetGap(psi, omega, dx2, n, p, q);
    var k := Combine(1.0, psi, t, e, n);
    DescentAlgebra(Steps(psi, n), Dot(omega, psi, n), Steps(e, n), Dot(e, Laplacian(psi, dx2, n), n), Dot(omega, e, n),
                   Steps(k, n), Dot(omega, k, n), dx2, At(Laplacian(psi, dx2, n), p, q), At(omega, p, q), d, w, t);
  }

  lemma TargetGap(psi: Field, omega: Field, dx2: real, n: nat, p: nat, q: nat)
    requires dx2 > 0.0 && p < n && q < n
    ensures dx2 * At(Laplacian(psi, dx2, n), p, q) + dx2 * At(omega, p, q) ==
            4.0 * Residual(psi, omega, dx2, n, p, q)
  {
    assert dx2 * (FivePoint(psi, n, p, q) / dx2) == FivePoint(psi, n, p, q);
  }

  lemma DescentAlgebra(steps: real, load: real, spike: real, spikeLap: real, spikeLoad: real,
                       steps': real, load': real, dx2: real, lap: real, om: real, d: real, w: real, t: real)
    requires t == Product(w, d) && dx2 * lap + dx2 * om == 4.0 * d
    requires spike == 4.0 && spikeLap == lap && spikeLoad == om
    requires steps' == steps - 2.0 * (t * (dx2 * spikeLap)) + (t * t) * spike
    requires load' == Lin(1.0, load, t, spikeLoad)
    ensures 0.5 * steps' - dx2 * load' == (0.5 * steps - dx2 * load) - Drop(w, d)
  {
    var a, b := dx2 * lap, dx2 * om;
    assert steps' == steps - 2.0 * (t * a) + 4.0 * (t * t);
    assert dx2 * load' == dx2 * load + t * b;
    assert t * a + t * b == t * (4.0 * d);
    assert t * t == (w * w) * (d * d) && t * d == w * (d * d);
    assert 2.0 * (w * (2.0 - w)) * (d * d) == 4.0 * (w * (d * d)) - 2.0 * ((w * w) * (d * d));
  }

  // ----- stationary points -----

  /** `psi` satisfies the five-point Poisson equation at every point. */
  ghost predicate Solves(psi: Field, omega: Field, dx2: real, n: nat) {
    forall i: nat, j: nat :: i < n && j < n ==> Target(psi, omega, dx2, n, i, j) == At(psi, i, j)
  }

  /** The functional exceeds its value at a solution by half the squared steps of the error. */
  lemma FunctionalMeasuresError(psi: Field, solution: Field, omega: Field, dx2: real, n: nat)
    requires dx2 > 0.0 && n > 0 && Square(psi, n) && Square(omega, n) && Solves(solution, omega, dx2, n)
    ensures Functional(psi, omega, dx2, n) - Functional(solution, omega, dx2, n) ==
            0.5 * Steps(Combine(1.0, psi, -1.0, solution, n), n)
    ensures Functional(psi, omega, dx2, n) >= Functional(solution, omega, dx2, n)
  {
    hide Dot, Steps, Combine, Laplacian, Solves, Square;
    var e := Combine(1.0, psi, -1.0, solution, n);
    var lap := Laplacian(solution, dx2, n);
    RebuildFromError(psi, solution, n);
    StepsAlongLine(solution, 1.0, e, dx2, n);
    DotCombine(omega, 1.0, solution, 1.0, e, n);
    SolutionLaplacian(solution, omega, dx2, n);
    DotCombine(e, dx2, lap, 0.0, lap, n);
    DotCombine(e, -dx2, omega, 0.0, omega, n);
    DotCommutes(e, omega, n);
    StepsNonNegative(e, n);
    ErrorAlgebra(Steps(psi, n), Steps(solution, n), Steps(e, n), Dot(omega, psi, n), Dot(omega, solution, n),
                 Dot(omega, e, n), Dot(e, lap, n), dx2);
  }

  lemma ErrorAlgebra(sp: real, ss: real, se: real, lp: real, ls: real, le: real, el: real, dx2: real)
    requires sp == ss - 2.0 * (1.0 * (dx2 * el)) + (1.0 * 1.0) * se
    requires lp == Lin(1.0, ls, 1.0, le)
    requires Lin(dx2, el, 0.0, el) == Lin(-dx2, le, 0.0, le)
    ensures (0.5 * sp - dx2 * lp) - (0.5 * ss - dx2 * ls) == 0.5 * se
  {
    assert dx2 * lp == dx2 * ls + dx2 * le;
  }

  lemma SolutionLaplacian(solution: Field, omega: Field, dx2: real, n: nat)
    requires dx2 > 0.0 && Square(omega, n) && Solves(solution, omega, dx2, n)
    ensures var lap := Laplacian(solution, dx2, n);
            Combine(dx2, lap, 0.0, lap, n) == Combine(-dx2, omega, 0.0, omega, n)
  {
    var lap := Laplacian(solution, dx2, n);
    var x, y := Combine(dx2, lap, 0.0, lap, n), Combine(-dx2, omega, 0.0, omega, n);
    forall i: nat, j: nat | i < n && j < n ensures At(x, i, j) == At(y, i, j) {
      SolutionPoint(solution, omega, dx2, n, i, j);
      hide Laplacian, Lin;
    }
    FieldEquality(x, y, n);
  }

  lemma SolutionPoint(solution: Field, omega: Field, dx2: real, n: nat, i: nat, j: nat)
    requires dx2 > 0.0 && i < n && j < n && Target(solution, omega, dx2, n, i, j) == At(solution, i, j)
    ensures var x := At(Laplacian(solution, dx2, n), i, j);
            Lin(dx2, x, 0.0, x) == Lin(-dx2, At(omega, i, j), 0.0, At(omega, i, j))
  {
    hide Laplacian, Target, Lin;
    TargetGap(solution, omega, dx2, n, i, j);
    OppositeTerms(dx2, At(Laplacian(solution, dx2, n), i, j), At(omega, i, j));
  }

  lemma OppositeTerms(c: real, x: real, y: real)
    requires c * x + c * y == 0.0
    ensures Lin(c, x, 0.0, x) == Lin(-c, y, 0.0, y)
  {
    assert (-c) * y == -(c * y);
  }

  lemma StepsNonNegative(f: Field, n: nat)
    ensures Steps(f, n) >= 0.0
  {
    DotPositive(Combine(1.0, East(f, n), -1.0, f, n), n);
    DotPositive(Combine(1.0, North(f, n), -1.0, f, n), n);
    hide Dot;
  }

  lemma RebuildFromError(psi: Field, solution: Field, n: nat)
    requires Square(psi, n)
    ensures Combine(1.0, solution, 1.0, Combine(1.0, psi, -1.0, solution, n), n) == psi
  {
    FieldEquality(Combine(1.0, solution, 1.0, Combine(1.0, psi, -1.0, solution, n), n), psi, n);
  }

  // ----- the gauge -----

  /** Subtracting a constant changes neither the squared steps nor, for zero-sum data, the load. */
  lemma GaugeKeepsFunctional(psi: Field, c: real, omega: Field, dx2: real, n: nat)
    requires dx2 > 0.0 && n > 0 && Square(omega, n) && Total(omega) == 0.0
    ensures Functional(Combine(1.0, psi, -c, OnesField(n), n), omega, dx2, n) == Functional(psi, omega, dx2, n)
  {
    hide Dot, Laplacian, Steps, Combine, OnesField, Total;
    StepsAlongLine(psi, -c, OnesField(n), dx2, n);
    LaplacianSumsToZero(psi, dx2, n);
    OnesHaveNoSteps(n);
    DotCombine(omega, 1.0, psi, -c, OnesField(n), n);
    DotOnes(omega, n);
  }

  lemma OnesHaveNoSteps(n: nat)
    requires n > 0
    ensures Steps(OnesField(n), n) == 0.0
  {
    DirichletForm(OnesField(n), 1.0, n);
    LaplacianOfOnes(1.0, n);
    DotZero(OnesField(n), n);
    hide Dot, Steps, OnesField;
  }

  // ----- a sweep, point by point in row order -----

  function RelaxRow(psi: Field, omega: Field, dx2: real, w: real, n: nat, i: nat, k: nat): (r: Field)
    requires i < n && k <= n && Square(psi, n)
    ensures Square(r, n)
  {
    if k == 0 then psi else Relaxed(RelaxRow(psi, omega, dx2, w, n, i, k - 1), omega, dx2, w, n, i, k - 1)
  }

  function RelaxRows(psi: Field, omega: Field, dx2: real, w: real, n: nat, rows: nat): (r: Field)
    requires rows <= n && Square(psi, n)
    ensures Square(r, n)
  {
    if rows == 0 then psi else RelaxRow(RelaxRows(psi, omega, dx2, w, n, rows - 1), omega, dx2, w, n, rows - 1, n)
  }

  ghost predicate RowSolved(psi: Field, omega: Field, dx2: real, n: nat, i: nat, k: nat)
    requires i < n && k <= n
  {
    forall j: nat :: j < k ==> Residual(psi, omega, dx2, n, i, j) == 0.0
  }

  lemma PointUpdateMonotone(psi: Field, omega: Field, dx2: real, w: real, n: nat, p: nat, q: nat)
    requires dx2 > 0.0 && n >= 2 && p < n && q < n && 0.0 < w < 2.0 && Square(psi, n)
    ensures Functional(Relaxed(psi, omega, dx2, w, n, p, q), omega, dx2, n) <= Functional(psi, omega, dx2, n)
    ensures Functional(Relaxed(psi, omega, dx2, w, n, p, q), omega, dx2, n) == Functional(psi, omega, dx2, n) ==>
              Residual(psi, omega, dx2, n, p, q) == 0.0 && Relaxed(psi, omega, dx2, w, n, p, q) == psi
  {
    PointUpdateDescent(psi, omega, dx2, w, n, p, q);
    var d := Residual(psi, omega, dx2, n, p, q);
    DropIsPositive(w, d);
    if d == 0.0 {
      NoResidualNoChange(psi, omega, dx2, w, n, p, q);
    }
    hide Functional, Relaxed;
  }

  lemma DropIsPositive(w: real, d: real)
    requires 0.0 < w < 2.0
    ensures Drop(w, d) >= 0.0 && (Drop(w, d) == 0.0 <==> d == 0.0)
  {
    var c := w * (2.0 - w);
    assert c > 0.0;
    if d == 0.0 {
    } else {
      PositiveSquare(d, d);
      assert d * d > 0.0;
      assert c * (d * d) > 0.0;
    }
  }

  lemma NoResidualNoChange(psi: Field, omega: Field, dx2: real, w: real, n: nat, p: nat, q: nat)
    requires p < n && q < n && Square(psi, n) && Residual(psi, omega, dx2, n, p, q) == 0.0
    ensures Relaxed(psi, omega, dx2, w, n, p, q) == psi
  {
    assert Product(w, 0.0) == 0.0;
    FieldEquality(Combine(1.0, psi, 0.0, Spike(p, q, n), n), psi, n);
    hide Target;
  }

  lemma {:induction false} RowDescends(psi: Field, omega: Field, dx2: real, w: real, n: nat, i: nat, k: nat)
    requires dx2 > 0.0 && n >= 2 && i < n && k <= n && 0.0 < w < 2.0 && Square(psi, n)
    ensures Functional(RelaxRow(psi, omega, dx2, w, n, i, k), omega, dx2, n) <= Functional(psi, omega, dx2, n)
    ensures Functional(RelaxRow(psi, omega, dx2, w, n, i, k), omega, dx2, n) == Functional(psi, omega, dx2, n) ==>
              RelaxRow(psi, omega, dx2, w, n, i, k) == psi && RowSolved(psi, omega, dx2, n, i, k)
  {
    hide Functional, Relaxed, Residual;
    if k == 0 {
    } else {
      RowDescends(psi, omega, dx2, w, n, i, k - 1);
      PointUpdateMonotone(RelaxRow(psi, omega, dx2, w, n, i, k - 1), omega, dx2, w, n, i, k - 1);
    }
  }

  ghost predicate RowsSolved(psi: Field, omega: Field, dx2: real, n: nat, rows: nat)
    requires rows <= n
  {
    forall i: nat :: i < rows ==> RowSolved(psi, omega, dx2, n, i, n)
  }

  /** A sweep never raises the functional, and leaves it unchanged only at a solution, which it does not move. */
  lemma {:induction false} SweepDescends(psi: Field, omega: Field, dx2: real, w: real, n: nat, rows: nat)
    requires dx2 > 0.0 && n >= 2 && rows <= n && 0.0 < w < 2.0 && Square(psi, n)
    ensures Functional(RelaxRows(psi, omega, dx2, w, n, rows), omega, dx2, n) <= Functional(psi, omega, dx2, n)
    ensures Functional(RelaxRows(psi, omega, dx2, w, n, rows), omega, dx2, n) == Functional(psi, omega, dx2, n) ==>
              RelaxRows(psi, omega, dx2, w, n, rows) == psi && RowsSolved(psi, omega, dx2, n, rows)
  {
    hide Functional, RelaxRow, RowSolved;
    if rows == 0 {
    } else {
      SweepDescends(psi, omega, dx2, w, n, rows - 1);
      RowDescends(RelaxRows(psi, omega, dx2, w, n, rows - 1), omega, dx2, w, n, rows - 1, n);
    }
  }

  lemma AllRowsSolved(psi: Field, omega: Field, dx2: real, n: nat)
    ensures RowsSolved(psi, omega, dx2, n, n) <==> Solves(psi, omega, dx2, n)
  {
    hide Target;
    if RowsSolved(psi, omega, dx2, n, n) {
      forall i: nat, j: nat | i < n && j < n ensures Target(psi, omega, dx2, n, i, j) == At(psi, i, j) {
        assert RowSolved(psi, omega, dx2, n, i, n);
        assert Residual(psi, omega, dx2, n, i, j) == 0.0;
      }
    }
  }

  // ----- the solver -----

  ghost function Snapshot(psi: array2<real>, n: nat): (f: Field)
    requires psi.Length0 == n && psi.Length1 == n
    reads psi
    ensures Square(f, n)
    ensures forall i: nat, j: nat :: i < n && j < n ==> At(f, i, j) == psi[i, j]
  {
    seq(n, i requires 0 <= i < n && psi.Length0 == n && psi.Length1 == n reads psi =>
      seq(n, j requires 0 <= j < n && psi.Length0 == n && psi.Length1 == n reads psi => psi[i, j]))
  }

  /** One in-place sweep in row order: each point already sees its relaxed predecessors. */
  method Sweep(psi: array2<real>, omega: Field, dx2: real, w: real)
    requires psi.Length0 == psi.Length1 == |omega| && Square(omega, |omega|)
    modifies psi
    ensures Snapshot(psi, |omega|) == RelaxRows(old(Snapshot(psi, |omega|)), omega, dx2, w, |omega|, |omega|)
  {
    hide RelaxRow, Relaxed;
    var n := |omega|;
    ghost var before := Snapshot(psi, n);
    for i := 0 to n
      invariant Snapshot(psi, n) == RelaxRows(before, omega, dx2, w, n, i)
    {
      ghost var start := Snapshot(psi, n);
      assert RelaxRow(start, omega, dx2, w, n, i, 0) == start by { RelaxNone(start, omega, dx2, w, n, i); }
      for j := 0 to n
        invariant Snapshot(psi, n) == RelaxRow(start, omega, dx2, w, n, i, j)
      {
        ghost var now := Snapshot(psi, n);
        var target := 0.25 * (psi[Next(i, n), j] + psi[Prev(i, n), j] + psi[i, Next(j, n)] + psi[i, Prev(j, n)]
                              + dx2 * omega[i][j]);
        ghost var value := psi[i, j];
        assert target == Target(now, omega, dx2, n, i, j) by {
          assert At(omega, i, j) == omega[i][j];
        }
        psi[i, j] := (1.0 - w) * psi[i, j] + w * target;
        UpdateIsRelaxation(now, Snapshot(psi, n), omega, dx2, w, n, i, j, psi[i, j], target);
        RelaxOneMore(start, omega, dx2, w, n, i, j);
      }
    }
  }

  lemma RelaxNone(psi: Field, omega: Field, dx2: real, w: real, n: nat, i: nat)
    requires i < n && Square(psi, n)
    ensures RelaxRow(psi, omega, dx2, w, n, i, 0) == psi
  {
  }

  lemma RelaxOneMore(psi: Field, omega: Field, dx2: real, w: real, n: nat, i: nat, j: nat)
    requires i < n && j < n && Square(psi, n)
    ensures RelaxRow(psi, omega, dx2, w, n, i, j + 1) ==
            Relaxed(RelaxRow(psi, omega, dx2, w, n, i, j), omega, dx2, w, n, i, j)
  {
  }

  lemma UpdateIsRelaxation(now: Field, next: Field, omega: Field, dx2: real, w: real, n: nat, p: nat, q: nat,
                           v: real, target: real)
    requires p < n && q < n && Square(now, n) && Square(next, n)
    requires target == Target(now, omega, dx2, n, p, q) && v == (1.0 - w) * At(now, p, q) + w * target
    requires forall i: nat, j: nat :: i < n && j < n ==> At(next, i, j) == if i == p && j == q then v else At(now, i, j)
    ensures next == Relaxed(now, omega, dx2, w, n, p, q)
  {
    hide Target;
    var d := Residual(now, omega, dx2, n, p, q);
    assert v == At(now, p, q) + Product(w, d);
    forall i: nat, j: nat | i < n && j < n ensures At(next, i, j) == At(Relaxed(now, omega, dx2, w, n, p, q), i, j) {
      hide Residual, Product;
    }
    FieldEquality(next, Relaxed(now, omega, dx2, w, n, p, q), n);
  }

  /** Subtract the grid mean. */
  function Gauge(f: Field, n: nat): Field
    requires n >= 1
  {
    AreaPositive(n);
    Combine(1.0, f, -(Total(f) / Area(n)), OnesField(n), n)
  }

  lemma Cancel(total: real, mean: real, area: real)
    requires mean * area == total
    ensures Lin(1.0, total, -mean, area) == 0.0
  {
  }

  lemma GaugeHasZeroSum(f: Field, n: nat)
    requires n >= 1 && Square(f, n)
    ensures Total(Gauge(f, n)) == 0.0 && Square(Gauge(f, n), n)
  {
    hide Total, Area, OnesField, Square, Lin;
    AreaPositive(n);
    var mean := Total(f) / Area(n);
    OnesIsSquare(n);
    GaugeIsSquare(f, n);
    TotalCombine(Gauge(f, n), 1.0, f, -mean, OnesField(n), n);
    TotalOfOnes(n);
    Quotient(Total(f), Area(n));
    Cancel(Total(f), mean, Area(n));
  }

  lemma GaugeIsSquare(f: Field, n: nat)
    requires n >= 1
    ensures Square(Gauge(f, n), n)
  {
    hide Area, Total;
  }

  /** State of the solver after `k` iterations of sweep and gauge from the zero field. */
  function Iterate(omega: Field, dx2: real, w: real, n: nat, k: nat): (psi: Field)
    requires n >= 1
    ensures Square(psi, n)
  {
    if k == 0 then ZeroField(n) else
      GaugeIsSquare(RelaxRows(Iterate(omega, dx2, w, n, k - 1), omega, dx2, w, n, n), n);
      Gauge(RelaxRows(Iterate(omega, dx2, w, n, k - 1), omega, dx2, w, n, n), n)
  }

  /** For zero-sum data each iteration lowers the functional unless the iterate already solves the equation. */
  lemma IterationDescends(omega: Field, dx2: real, w: real, n: nat, k: nat)
    requires dx2 > 0.0 && n >= 2 && 0.0 < w < 2.0 && Square(omega, n) && Total(omega) == 0.0
    ensures var now, next := Iterate(omega, dx2, w, n, k), Iterate(omega, dx2, w, n, k + 1);
            && Functional(next, omega, dx2, n) <= Functional(now, omega, dx2, n)
            && (Functional(next, omega, dx2, n) == Functional(now, omega, dx2, n) ==> Solves(now, omega, dx2, n))
  {
    hide Functional, RelaxRows, Solves, RowsSolved, Total, OnesField;
    var now := Iterate(omega, dx2, w, n, k);
    var swept := RelaxRows(now, omega, dx2, w, n, n);
    SweepDescends(now, omega, dx2, w, n, n);
    AreaPositive(n);
    GaugeKeepsFunctional(swept, Total(swept) / Area(n), omega, dx2, n);
    AllRowsSolved(now, omega, dx2, n);
  }

  /** No iterate ever rises above the start. */
  lemma {:induction false} IteratesStayBelowStart(omega: Field, dx2: real, w: real, n: nat, k: nat)
    requires dx2 > 0.0 && n >= 2 && 0.0 < w < 2.0 && Square(omega, n) && Total(omega) == 0.0
    ensures Functional(Iterate(omega, dx2, w, n, k), omega, dx2, n) <= 0.0
  {
    hide Functional, Total, Iterate;
    if k == 0 {
      ZeroStart(omega, dx2, w, n);
    } else {
      IteratesStayBelowStart(omega, dx2, w, n, k - 1);
      IterationDescends(omega, dx2, w, n, k - 1);
    }
  }

  lemma ZeroStart(omega: Field, dx2: real, w: real, n: nat)
    requires n >= 1
    ensures Functional(Iterate(omega, dx2, w, n, 0), omega, dx2, n) == 0.0
  {
    hide Dot;
    var z := ZeroField(n);
    var e, m := Combine(1.0, East(z, n), -1.0, z, n), Combine(1.0, North(z, n), -1.0, z, n);
    FieldEquality(e, z, n);
    FieldEquality(m, z, n);
    DotZero(z, n);
    DotZero(omega, n);
  }

  // ----- accumulating loops -----

  lemma SumSnoc(s: seq<real>, j: nat)
    requires j < |s|
    ensures Sum(s[..j + 1]) == Sum(s[..j]) + s[j]
  {
    SumAppend(s[..j], [s[j]]);
    assert s[..j + 1] == s[..j] + [s[j]];
    assert [s[j]][1..] == [];
  }

  lemma TotalSnoc(f: Field, i: nat)
    requires i < |f|
    ensures Total(f[..i + 1]) == Total(f[..i]) + Sum(f[i])
  {
    TotalAppend(f[..i], [f[i]]);
    assert f[..i + 1] == f[..i] + [f[i]];
    assert [f[i]][1..] == [];
  }

  method Mean(psi: array2<real>) returns (mean: real)
    requires psi.Length0 == psi.Length1 >= 1
    ensures Area(psi.Length0) > 0.0 && mean == Total(Snapshot(psi, psi.Length0)) / Area(psi.Length0)
  {
    hide Sum, Total, Area;
    var n := psi.Length0;
    AreaPositive(n);
    ghost var f := Snapshot(psi, n);
    var total := 0.0;
    EmptySums(f);
    for i := 0 to n
      invariant total == Total(f[..i])
    {
      EmptySum(f[i]);
      var row := 0.0;
      for j := 0 to n
        invariant row == Sum(f[i][..j])
      {
        assert f[i][j] == psi[i, j] by { assert At(f, i, j) == psi[i, j]; }
        SumSnoc(f[i], j);
        row := row + psi[i, j];
      }
      assert f[i][..n] == f[i];
      TotalSnoc(f, i);
      total := total + row;
    }
    assert f[..n] == f;
    mean := total / Area(n);
  }

  lemma EmptySums(f: Field)
    ensures Total(f[..0]) == 0.0
  {
  }

  lemma EmptySum(s: seq<real>)
    ensures Sum(s[..0]) == 0.0
  {
  }

  /** The five-point residual whose root mean square decides convergence. */
  function ErrorField(psi: Field, omega: Field, dx2: real, n: nat): Field
    requires dx2 > 0.0
  {
    Tabulate(n, (i: nat, j: nat) => if i < n && j < n then ErrorAt(psi, omega, dx2, n, i, j) else 0.0)
  }

  function ErrorAt(psi: Field, omega: Field, dx2: real, n: nat, i: nat, j: nat): real
    requires dx2 > 0.0 && i < n && j < n
  {
    -FivePoint(psi, n, i, j) * (1.0 / dx2) - At(omega, i, j)
  }

  function MeanSquareError(psi: Field, omega: Field, dx2: real, n: nat): real
    requires dx2 > 0.0 && n >= 1
  {
    AreaPositive(n);
    Dot(ErrorField(psi, omega, dx2, n), ErrorField(psi, omega, dx2, n), n) / Area(n)
  }

  lemma MeanSquareNonNegative(psi: Field, omega: Field, dx2: real, n: nat)
    requires dx2 > 0.0 && n >= 1
    ensures MeanSquareError(psi, omega, dx2, n) >= 0.0
  {
    var e := ErrorField(psi, omega, dx2, n);
    DotPositive(e, n);
    AreaPositive(n);
    NonNegativeQuotient(Dot(e, e, n), Area(n));
    hide Dot, Area, ErrorField;
  }

  lemma NonNegativeQuotient(x: real, y: real)
    requires x >= 0.0 && y > 0.0
    ensures x / y >= 0.0
  {
  }

  /** Root mean square of the five-point residual. */
  method PoissonResidualRms(psi: array2<real>, omega: Field, dx2: real, sqrt: real -> real) returns (rms: real)
    requires psi.Length0 == psi.Length1 == |omega| >= 1 && Square(omega, |omega|) && dx2 > 0.0 && IsRoot(sqrt)
    ensures rms == sqrt(MeanSquareError(Snapshot(psi, |omega|), omega, dx2, |omega|))
    ensures rms >= 0.0 && Sq(rms) == MeanSquareError(Snapshot(psi, |omega|), omega, dx2, |omega|)
  {
    hide Sum, Total, Area, Product, Sq, ErrorAt;
    var n := |omega|;
    AreaPositive(n);
    ghost var f := Snapshot(psi, n);
    ghost var e := ErrorField(f, omega, dx2, n);
    ghost var sq := Times(e, e, n);
    var inverse := 1.0 / dx2;
    var total := 0.0;
    EmptySums(sq);
    for i := 0 to n
      invariant total == Total(sq[..i])
    {
      ghost var start := total;
      EmptySum(sq[i]);
      for j := 0 to n
        invariant total == start + Sum(sq[i][..j])
      {
        var minusLaplacian := (4.0 * psi[i, j] - psi[Next(i, n), j] - psi[Prev(i, n), j] - psi[i, Next(j, n)]
                               - psi[i, Prev(j, n)]) * inverse;
        var error := minusLaplacian - omega[i][j];
        ErrorMatches(f, omega, dx2, n, i, j, minusLaplacian);
        assert sq[i][j] == Product(error, error) by {
          assert At(sq, i, j) == Product(At(e, i, j), At(e, i, j));
        }
        SumSnoc(sq[i], j);
        total := total + Product(error, error);
      }
      assert sq[i][..n] == sq[i];
      TotalSnoc(sq, i);
    }
    assert sq[..n] == sq;
    MeanSquareNonNegative(f, omega, dx2, n);
    rms := sqrt(total / Area(n));
  }

  lemma ErrorMatches(f: Field, omega: Field, dx2: real, n: nat, i: nat, j: nat, minusLaplacian: real)
    requires dx2 > 0.0 && i < n && j < n && Square(omega, n)
    requires minusLaplacian == (4.0 * At(f, i, j) - At(f, Next(i, n), j) - At(f, Prev(i, n), j) - At(f, i, Next(j, n))
                                - At(f, i, Prev(j, n))) * (1.0 / dx2)
    ensures minusLaplacian - omega[i][j] == At(ErrorField(f, omega, dx2, n), i, j)
  {
    assert At(omega, i, j) == omega[i][j];
    assert 4.0 * At(f, i, j) - At(f, Next(i, n), j) - At(f, Prev(i, n), j) - At(f, i, Next(j, n))
           - At(f, i, Prev(j, n)) == -FivePoint(f, n, i, j);
  }

  method SubtractMean(psi: array2<real>)
    requires psi.Length0 == psi.Length1 >= 1
    modifies psi
    ensures Snapshot(psi, psi.Length0) == Gauge(old(Snapshot(psi, psi.Length0)), psi.Length0)
  {
    hide Total, Area;
    var n := psi.Length0;
    ghost var before := Snapshot(psi, n);
    var gauge := Mean(psi);
    for i := 0 to n
      invariant forall k: nat, l: nat :: k < i && l < n ==> psi[k, l] == At(before, k, l) - gauge
      invariant forall k: nat, l: nat :: i <= k < n && l < n ==> psi[k, l] == At(before, k, l)
    {
      for j := 0 to n
        invariant forall k: nat, l: nat :: k < i && l < n ==> psi[k, l] == At(before, k, l) - gauge
        invariant forall l: nat :: l < j ==> psi[i, l] == At(before, i, l) - gauge
        invariant forall l: nat :: j <= l < n ==> psi[i, l] == At(before, i, l)
        invariant forall k: nat, l: nat :: i < k < n && l < n ==> psi[k, l] == At(before, k, l)
      {
        psi[i, j] := psi[i, j] - gauge;
      }
    }
    GaugeIsSquare(before, n);
    FieldEquality(Snapshot(psi, n), Gauge(before, n), n);
  }

  lemma FirstIterate(omega: Field, dx2: real, w: real, n: nat, f: Field)
    requires n >= 1 && Square(f, n) && forall i: nat, j: nat :: i < n && j < n ==> At(f, i, j) == 0.0
    ensures f == Iterate(omega, dx2, w, n, 0)
  {
    FieldEquality(f, ZeroField(n), n);
  }

  lemma NextIterate(omega: Field, dx2: real, w: real, n: nat, k: nat)
    requires n >= 1
    ensures Iterate(omega, dx2, w, n, k + 1) == Gauge(RelaxRows(Iterate(omega, dx2, w, n, k), omega, dx2, w, n, n), n)
  {
  }
}
