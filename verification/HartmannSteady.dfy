/** The steady Hartmann solve: it never degenerates, its profile obeys sharp bounds and comparison
    principles, and it is the fixed point that transient runs approach. */
module HartmannSteady {
  import opened Hartmann
  import opened RealArith
  import opened Tridiagonal
  import opened Wrappers

  // ----- the solve -----

  function SteadySystem(interior: nat, offdiag: real, ha2: real): System
    requires interior >= 1
  {
    System(seq(interior - 1, _ => offdiag), seq(interior, _ => -2.0 * offdiag - ha2), seq(interior - 1, _ => offdiag),
           seq(interior, _ => -1.0))
  }

  /** Every pivot is at most -1/dy^2, so the degenerate error never fires. */
  lemma {:induction false} SteadyPivots(interior: nat, offdiag: real, ha2: real, k: nat)
    requires interior >= 1 && offdiag > 0.0 && ha2 >= 0.0 && k < interior
    ensures SteadySystem(interior, offdiag, ha2).Shaped()
    ensures SteadySystem(interior, offdiag, ha2).Pivot(k) <= -offdiag
    ensures k + 1 < interior ==> -1.0 <= SteadySystem(interior, offdiag, ha2).CPrime(k) <= 0.0
  {
    var s := SteadySystem(interior, offdiag, ha2);
    if k == 0 {
      FirstPivotIsDiagonal(s);
    } else {
      SteadyPivots(interior, offdiag, ha2, k - 1);
      PivotStep(s, k);
      SteadySchur(offdiag, ha2, s.CPrime(k - 1));
    }
    if k + 1 < interior {
      assert s.CPrime(k) == Quot(offdiag, s.Pivot(k));
      SteadyQuotient(offdiag, s.Pivot(k));
    }
  }

  lemma SteadySchur(o: real, q: real, cp: real)
    requires o > 0.0 && q >= 0.0 && -1.0 <= cp <= 0.0
    ensures Schur(-2.0 * o - q, o, cp) <= -o
  {
    assert o * (1.0 + cp) >= 0.0;
  }

  lemma SteadyQuotient(o: real, p: real)
    requires o > 0.0 && p <= -o
    ensures -1.0 <= Quot(o, p) <= 0.0
  {
    var q := o / p;
    assert q * p == o;
    assert q > 0.0 ==> q * p < 0.0;
    assert q < -1.0 ==> (q + 1.0) * p > 0.0;
  }

  method SolveHartmannFd(hartmann: real, gridSize: int) returns (r: Result<(seq<real>, seq<real>), string>)
    ensures r.Success? <==> gridSize >= 5 && gridSize % 2 == 1
    ensures r.Success? ==>
              var (y, velocity) := r.value;
              var dy := 2.0 / ((gridSize - 1) as real);
              && |y| == |velocity| == gridSize && dy > 0.0
              && (forall i: nat :: i < gridSize ==> y[i] == Node(i, dy))
              && Steady(velocity, dy, Sq(Abs(hartmann)))
  {
    if gridSize < 5 || gridSize % 2 == 0 {
      return Failure("Hartmann reference requires an odd grid_size >= 5");
    }
    var ha := Abs(hartmann);
    var dy := 2.0 / ((gridSize - 1) as real);
    PositiveQuotient(2.0, (gridSize - 1) as real);
    var interior: nat := gridSize - 2;
    var offdiag := 1.0 / Sq(dy);
    SquareNonNegative(ha);
    OffDiagonalBound(dy, gridSize);
    var s := SteadySystem(interior, offdiag, Sq(ha));
    forall k: nat | k < interior ensures Abs(s.Pivot(k)) > PIVOT_FLOOR {
      SteadyPivots(interior, offdiag, Sq(ha), k);
    }
    SteadyPivots(interior, offdiag, Sq(ha), 0);
    FirstPivotIsDiagonal(s);
    var solved := SolveTridiagonal(s.lower, s.diagonal, s.upper, s.rhs);
    assert s == System(s.lower, s.diagonal, s.upper, s.rhs);
    var velocity := [0.0] + solved.value + [0.0];
    SolutionIsSteady(solved.value, interior, offdiag, Sq(ha), dy);
    var y := seq(gridSize, i requires 0 <= i < gridSize => Node(i, dy));
    r := Success((y, velocity));
  }

  lemma OffDiagonalBound(dy: real, gridSize: int)
    requires gridSize >= 5 && dy == 2.0 / ((gridSize - 1) as real)
    ensures dy > 0.0 && Sq(dy) > 0.0 && 1.0 / Sq(dy) >= 1.0 && (1.0 / Sq(dy)) * Sq(dy) == 1.0
  {
    var n := (gridSize - 1) as real;
    SmallSpacing(dy, n);
    ProductOfPositives(dy, dy);
    SmallSquare(dy);
    InverseOfSmall(Sq(dy));
  }

  lemma SmallSpacing(dy: real, n: real)
    requires n >= 4.0 && dy == 2.0 / n
    ensures 0.0 < dy <= 0.5
  {
    assert dy * n == 2.0;
    PositiveQuotient(2.0, n);
    assert dy > 0.5 ==> (dy - 0.5) * n > 0.0;
  }

  lemma SmallSquare(dy: real)
    requires 0.0 < dy <= 0.5
    ensures Sq(dy) <= 1.0
  {
    var gap := 0.5 - dy;
    assert Product(dy, dy) == 0.5 * dy - dy * gap;
    assert dy * gap >= 0.0;
  }

  lemma InverseOfSmall(y: real)
    requires 0.0 < y <= 1.0
    ensures (1.0 / y) * y == 1.0 && 1.0 / y >= 1.0
  {
    var o := 1.0 / y;
    assert o * y == 1.0;
    assert (o - 1.0) * y == 1.0 - y;
    assert o - 1.0 < 0.0 ==> (o - 1.0) * y < 0.0;
  }

  lemma SolutionIsSteady(x: seq<real>, interior: nat, offdiag: real, ha2: real, dy: real)
    requires interior >= 1 && dy > 0.0 && offdiag * Sq(dy) == 1.0
    requires SteadySystem(interior, offdiag, ha2).Shaped() && SteadySystem(interior, offdiag, ha2).Solution(x)
    ensures Steady([0.0] + x + [0.0], dy, ha2)
  {
    var u := [0.0] + x + [0.0];
    var s := SteadySystem(interior, offdiag, ha2);
    hide Sq;
    forall i: nat | 1 <= i < |u| - 1 ensures SteadyAt(u, dy, ha2, i) {
      assert s.Apply(x, i - 1) == s.rhs[i - 1] == -1.0;
      assert i - 1 == 0 ==> u[i - 1] == 0.0;
      assert i == |x| ==> u[i + 1] == 0.0;
      assert offdiag * u[i - 1] + (-2.0 * offdiag - ha2) * u[i] + offdiag * u[i + 1] == -1.0;
      RescaleRow(offdiag, Sq(dy), ha2, u[i - 1], u[i], u[i + 1], Bend(u, i));
    }
  }

  lemma RescaleRow(o: real, y2: real, q: real, west: real, here: real, east: real, bend: real)
    requires o * y2 == 1.0 && bend == west - 2.0 * here + east
    requires o * west + (-2.0 * o - q) * here + o * east == -1.0
    ensures bend == y2 * (q * here - 1.0)
  {
    assert o * bend == q * here - 1.0;
    assert y2 * (o * bend) == (o * y2) * bend;
  }

  // ----- comparison principle -----

  /** Index of the first smallest entry. */
  lemma {:induction false} FirstMinimum(w: seq<real>, n: nat) returns (k: nat)
    requires 1 <= n <= |w|
    ensures k < n
    ensures forall i: nat :: i < n ==> w[k] <= w[i]
    ensures forall i: nat :: i < k ==> w[k] < w[i]
  {
    if n == 1 {
      k := 0;
    } else {
      k := FirstMinimum(w, n - 1);
      if w[n - 1] < w[k] {
        k := n - 1;
      }
    }
  }

  /** Discrete maximum principle: a zero-boundary supersolution of the damped operator is non-negative. */
  lemma SupersolutionNonNegative(w: seq<real>, kappa: real)
    requires ZeroEnds(w) && kappa >= 0.0
    requires forall i: nat :: 1 <= i < |w| - 1 ==> Bend(w, i) <= Product(kappa, w[i])
    ensures forall i: nat :: i < |w| ==> w[i] >= 0.0
  {
    var k := FirstMinimum(w, |w|);
    if w[k] < 0.0 {
      assert 1 <= k < |w| - 1;
      assert w[k] < w[k - 1] && w[k] <= w[k + 1];
      assert Bend(w, k) > 0.0;
      NegativeProduct(kappa, w[k]);
      assert false;
    }
  }

  lemma NegativeProduct(x: real, y: real)
    requires x >= 0.0 && y < 0.0
    ensures Product(x, y) <= 0.0
  {
  }

  /** Grid coordinate of node `i`. */
  function Node(i: nat, dy: real): real {
    -1.0 + (i as real) * dy
  }

  /** The laminar parabola (1 - y^2)/2 at the grid nodes. */
  function Parabola(n: nat, dy: real): (p: seq<real>)
    ensures |p| == n
  {
    seq(n, i requires 0 <= i < n => 0.5 * (1.0 - Sq(Node(i, dy))))
  }

  lemma ParabolaBends(n: nat, dy: real)
    requires n >= 3 && dy * ((n - 1) as real) == 2.0
    ensures ZeroEnds(Parabola(n, dy))
    ensures forall i: nat :: 1 <= i < n - 1 ==> Bend(Parabola(n, dy), i) == -Sq(dy)
  {
    var p := Parabola(n, dy);
    EndNodes(n, dy);
    forall i: nat | 1 <= i < n - 1 ensures Bend(p, i) == -Sq(dy) {
      NodeBend(Node(i, dy), dy);
      NodeSteps(i, dy);
      hide Node, Sq;
    }
  }

  lemma NodeSteps(i: nat, dy: real)
    requires i >= 1
    ensures Node(i - 1, dy) == Node(i, dy) - dy && Node(i + 1, dy) == Node(i, dy) + dy
  {
    assert (i - 1) as real == (i as real) - 1.0 && (i + 1) as real == (i as real) + 1.0;
    var x := i as real;
    assert (x - 1.0) * dy == x * dy - dy && (x + 1.0) * dy == x * dy + dy;
  }

  lemma EndNodes(n: nat, dy: real)
    requires n >= 3 && dy * ((n - 1) as real) == 2.0
    ensures Sq(Node(0, dy)) == 1.0 && Sq(Node(n - 1, dy)) == 1.0
  {
    assert Node(0, dy) == -1.0 && Node(n - 1, dy) == 1.0;
  }

  lemma NodeBend(y: real, dy: real)
    ensures 0.5 * (1.0 - Sq(y - dy)) - 2.0 * (0.5 * (1.0 - Sq(y))) + 0.5 * (1.0 - Sq(y + dy)) == -Sq(dy)
  {
    assert Sq(y - dy) == Sq(y) - 2.0 * (y * dy) + Sq(dy);
    assert Sq(y + dy) == Sq(y) + 2.0 * (y * dy) + Sq(dy);
  }

  lemma SteadyIsNonNegative(s: seq<real>, dy: real, ha2: real)
    requires dy > 0.0 && ha2 >= 0.0 && Steady(s, dy, ha2)
    ensures forall i: nat :: i < |s| ==> s[i] >= 0.0
  {
    SquareNonNegative(dy);
    var kappa := Product(Sq(dy), ha2);
    KappaNonNegative(dy, ha2);
    forall i: nat | 1 <= i < |s| - 1 ensures Bend(s, i) <= Product(kappa, s[i]) {
      assert SteadyAt(s, dy, ha2, i);
      KappaSplit(Sq(dy), ha2, s[i]);
      hide Sq, Product;
    }
    SupersolutionNonNegative(s, kappa);
  }

  lemma KappaNonNegative(dy: real, ha2: real)
    requires ha2 >= 0.0
    ensures Product(Sq(dy), ha2) >= 0.0
  {
    SquareNonNegative(dy);
    var y2 := Sq(dy);
    hide Sq;
  }

  lemma KappaSplit(y2: real, q: real, x: real)
    ensures y2 * (q * x - 1.0) == Product(Product(y2, q), x) - y2
  {
  }

  /** The profile lies between zero and the laminar parabola at every node. */
  lemma SteadyBounds(s: seq<real>, dy: real, ha2: real)
    requires dy > 0.0 && ha2 >= 0.0 && Steady(s, dy, ha2) && dy * ((|s| - 1) as real) == 2.0
    ensures forall i: nat :: i < |s| ==> 0.0 <= s[i] <= Parabola(|s|, dy)[i]
  {
    SteadyIsNonNegative(s, dy, ha2);
    var p := Parabola(|s|, dy);
    ParabolaBends(|s|, dy);
    var w := Difference(p, s);
    KappaNonNegative(dy, ha2);
    forall i: nat | 1 <= i < |w| - 1 ensures Bend(w, i) <= Product(0.0, w[i]) {
      assert SteadyAt(s, dy, ha2, i);
      KappaSplit(Sq(dy), ha2, s[i]);
      assert Bend(w, i) == Bend(p, i) - Bend(s, i);
      NonNegativeTimes(Product(Sq(dy), ha2), s[i]);
      hide Sq;
    }
    SupersolutionNonNegative(w, 0.0);
    forall i: nat | i < |s| ensures s[i] <= p[i] {
      assert w[i] >= 0.0;
    }
  }

  lemma NonNegativeTimes(x: real, y: real)
    requires x >= 0.0 && y >= 0.0
    ensures Product(x, y) >= 0.0
  {
  }

  /** Stronger damping gives a pointwise smaller profile; in particular the profile is unique. */
  lemma SteadyMonotone(s: seq<real>, t: seq<real>, dy: real, q: real, q': real)
    requires dy > 0.0 && 0.0 <= q <= q' && |s| == |t| && Steady(s, dy, q) && Steady(t, dy, q')
    ensures forall i: nat :: i < |s| ==> t[i] <= s[i]
  {
    SteadyIsNonNegative(t, dy, q');
    var w := Difference(s, t);
    var kappa := Product(Sq(dy), q);
    KappaNonNegative(dy, q);
    forall i: nat | 1 <= i < |w| - 1 ensures Bend(w, i) <= Product(kappa, w[i]) {
      assert SteadyAt(s, dy, q, i) && SteadyAt(t, dy, q', i);
      assert Bend(w, i) == Bend(s, i) - Bend(t, i);
      SquareNonNegative(dy);
      DampingGap(Sq(dy), q, q', s[i], t[i]);
      hide Sq;
    }
    SupersolutionNonNegative(w, kappa);
    forall i: nat | i < |s| ensures t[i] <= s[i] {
      assert w[i] >= 0.0;
    }
  }

  lemma DampingGap(y2: real, q: real, q': real, s: real, t: real)
    requires y2 >= 0.0 && q <= q' && t >= 0.0
    ensures y2 * (q * s - 1.0) - y2 * (q' * t - 1.0) <= Product(Product(y2, q), s - t)
  {
    var gap := (q' - q) * t;
    assert gap >= 0.0;
    assert y2 * gap >= 0.0;
    assert y2 * (q * s - 1.0) - y2 * (q' * t - 1.0) == (y2 * q) * (s - t) - y2 * gap;
  }

  /** Without a magnetic field the discrete profile is exactly the parabola. */
  lemma ZeroFieldIsParabola(s: seq<real>, dy: real)
    requires dy > 0.0 && Steady(s, dy, 0.0) && dy * ((|s| - 1) as real) == 2.0
    ensures s == Parabola(|s|, dy)
  {
    var p := Parabola(|s|, dy);
    ParabolaBends(|s|, dy);
    assert Steady(p, dy, 0.0) by {
      forall i: nat | 1 <= i < |p| - 1 ensures SteadyAt(p, dy, 0.0, i) {
        assert 0.0 * p[i] - 1.0 == -1.0;
      }
    }
    SteadyUnique(s, p, dy, 0.0);
  }

  lemma SteadyUnique(s: seq<real>, t: seq<real>, dy: real, ha2: real)
    requires dy > 0.0 && ha2 >= 0.0 && |s| == |t| && Steady(s, dy, ha2) && Steady(t, dy, ha2)
    ensures s == t
  {
    SteadyMonotone(s, t, dy, ha2, ha2);
    SteadyMonotone(t, s, dy, ha2, ha2);
  }

  function Mirror(s: seq<real>): (r: seq<real>)
    ensures |r| == |s|
  {
    seq(|s|, i requires 0 <= i < |s| => s[|s| - 1 - i])
  }

  /** The profile is symmetric about the channel centre. */
  lemma SteadySymmetric(s: seq<real>, dy: real, ha2: real)
    requires dy > 0.0 && ha2 >= 0.0 && Steady(s, dy, ha2)
    ensures Mirror(s) == s
  {
    var r := Mirror(s);
    forall i: nat | 1 <= i < |r| - 1 ensures SteadyAt(r, dy, ha2, i) {
      assert SteadyAt(s, dy, ha2, |s| - 1 - i);
    }
    SteadyUnique(r, s, dy, ha2);
  }
}
