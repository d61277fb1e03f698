/** The driver of the over-relaxation solver. It converges whenever the mean of the vorticity is small against the
    tolerance, and so for every tolerance when the mean is zero: each sweep lowers the functional by a fixed share of
    the squared residual it starts from, the gauge gives back at most what the mean allows, and the functional is
    bounded below. */
module SorSolver {
  import opened Grid
  import opened Mhd
  import opened MhdStates
  import opened Poisson
  import opened RealArith
  import opened Sor
  import opened Wrappers

  const MIN_SIZE := 8
  const MEAN_LIMIT := 0.000000000001

  // ----- a residual is paid for by the sweep that starts from it -----

  lemma DropOfStep(w: real, d: real)
    requires 0.0 < w < 2.0
    ensures 0.0 <= Drop(w, Product(w, d)) <= 4.0 * Drop(w, d)
  {
    var c, s := w * (2.0 - w), d * d;
    assert c > 0.0 && s >= 0.0;
    assert Product(w, d) * Product(w, d) == (w * w) * s;
    var ww := w * w;
    assert 0.0 <= ww <= 4.0;
    assert 0.0 <= ww * s <= 4.0 * s;
    DropIsPositive(w, Product(w, d));
    Monotone(2.0 * c, ww * s, 4.0 * s);
  }

  lemma Monotone(c: real, x: real, y: real)
    requires c >= 0.0 && x <= y
    ensures Product(c, x) <= Product(c, y)
  {
  }

  /** A residual that differs from d by a quarter of four changes. */
  lemma DropOfResidual(w: real, r: real, d: real, b1: real, b2: real, b3: real, b4: real, fall: real)
    requires 0.0 < w < 2.0 && r == d - 0.25 * (b1 + b2 + b3 + b4)
    requires Drop(w, d) <= fall
    requires Drop(w, b1) <= 4.0 * fall && Drop(w, b2) <= 4.0 * fall && Drop(w, b3) <= 4.0 * fall
             && Drop(w, b4) <= 4.0 * fall
    ensures Drop(w, r) <= 10.0 * fall
  {
    hide Drop, Product, Sq;
    var c := Drop(w, 1.0);
    DropIsPositive(w, 1.0);
    SquareOfMean(r, d, b1, b2, b3, b4);
    DropAsProduct(w, r);
    DropAsProduct(w, d);
    DropAsProduct(w, b1);
    DropAsProduct(w, b2);
    DropAsProduct(w, b3);
    DropAsProduct(w, b4);
    Monotone(c, Sq(r), 2.0 * Sq(d) + 0.5 * (Sq(b1) + Sq(b2) + Sq(b3) + Sq(b4)));
    Weights(c, Sq(d), Sq(b1), Sq(b2), Sq(b3), Sq(b4));
  }

  lemma DropAsProduct(w: real, x: real)
    ensures Drop(w, x) == Product(Drop(w, 1.0), Sq(x))
  {
  }

  lemma Weights(c: real, x: real, y1: real, y2: real, y3: real, y4: real)
    ensures Product(c, 2.0 * x + 0.5 * (y1 + y2 + y3 + y4)) ==
            2.0 * Product(c, x) + 0.5 * (Product(c, y1) + Product(c, y2) + Product(c, y3) + Product(c, y4))
  {
  }

  lemma SquareOfMean(r: real, d: real, b1: real, b2: real, b3: real, b4: real)
    requires r == d - 0.25 * (b1 + b2 + b3 + b4)
    ensures Sq(r) <= 2.0 * Sq(d) + 0.5 * (Sq(b1) + Sq(b2) + Sq(b3) + Sq(b4))
  {
    hide Sq;
    var a := 0.25 * (b1 + b2 + b3 + b4);
    SquareOfSum(d, -a);
    SquareOfSum(b1, b2);
    SquareOfSum(b3, b4);
    SquareOfSum(b1 + b2, b3 + b4);
    Quarter(a, b1 + b2 + (b3 + b4));
  }

  lemma Quarter(a: real, b: real)
    requires a == 0.25 * b
    ensures Sq(-a) == Sq(a) == 0.0625 * Sq(b)
  {
  }

  lemma SquareOfSum(x: real, y: real)
    ensures Sq(x + y) <= 2.0 * Sq(x) + 2.0 * Sq(y)
  {
    SquareNonNegative(x - y);
    assert Sq(x + y) + Sq(x - y) == 2.0 * Sq(x) + 2.0 * Sq(y);
  }

  /** Within a row only the points already visited have moved, each by one update. */
  lemma {:induction false} RowEntries(psi: Field, omega: Field, dx2: real, w: real, n: nat, i: nat, k: nat, p: nat,
                                      q: nat)
    requires dx2 > 0.0 && n >= 2 && i < n && k <= n && p < n && q < n && 0.0 < w < 2.0 && Square(psi, n)
    ensures var f := RelaxRow(psi, omega, dx2, w, n, i, k);
            && (p != i || q >= k ==> At(f, p, q) == At(psi, p, q))
            && Drop(w, At(f, p, q) - At(psi, p, q)) <=
               4.0 * (Functional(psi, omega, dx2, n) - Functional(f, omega, dx2, n))
  {
    hide Functional, Drop, Residual, Square, Product, RelaxRow, Relaxed;
    if k == 0 {
      RelaxNone(psi, omega, dx2, w, n, i);
      DropIsPositive(w, 0.0);
    } else {
      var f := RelaxRow(psi, omega, dx2, w, n, i, k - 1);
      var d := Residual(f, omega, dx2, n, i, k - 1);
      RowEntries(psi, omega, dx2, w, n, i, k - 1, p, q);
      RowDescends(psi, omega, dx2, w, n, i, k - 1);
      RelaxOneMore(psi, omega, dx2, w, n, i, k - 1);
      PointUpdateDescent(f, omega, dx2, w, n, i, k - 1);
      DropIsPositive(w, d);
      DropOfStep(w, d);
      RelaxedEntry(f, omega, dx2, w, n, i, k - 1, p, q);
    }
  }

  lemma RelaxedEntry(f: Field, omega: Field, dx2: real, w: real, n: nat, i: nat, j: nat, p: nat, q: nat)
    requires i < n && j < n && p < n && q < n
    ensures At(Relaxed(f, omega, dx2, w, n, i, j), p, q) ==
            At(f, p, q) + (if p == i && q == j then Product(w, Residual(f, omega, dx2, n, i, j)) else 0.0)
  {
    hide Residual, Product;
  }

  lemma {:induction false} RowsEntries(psi: Field, omega: Field, dx2: real, w: real, n: nat, rows: nat, p: nat, q: nat)
    requires dx2 > 0.0 && n >= 2 && rows <= n && p < n && q < n && 0.0 < w < 2.0 && Square(psi, n)
    ensures var f := RelaxRows(psi, omega, dx2, w, n, rows);
            && (p >= rows ==> At(f, p, q) == At(psi, p, q))
            && Drop(w, At(f, p, q) - At(psi, p, q)) <=
               4.0 * (Functional(psi, omega, dx2, n) - Functional(f, omega, dx2, n))
  {
    hide Functional, Drop, RelaxRow;
    if rows == 0 {
      DropIsPositive(w, 0.0);
    } else {
      var f := RelaxRows(psi, omega, dx2, w, n, rows - 1);
      RowsEntries(psi, omega, dx2, w, n, rows - 1, p, q);
      SweepDescends(psi, omega, dx2, w, n, rows - 1);
      RowEntries(f, omega, dx2, w, n, rows - 1, n, p, q);
      RowDescends(f, omega, dx2, w, n, rows - 1, n);
    }
  }

  lemma {:induction false} RowMonotone(psi: Field, omega: Field, dx2: real, w: real, n: nat, i: nat, k: nat, m: nat)
    requires dx2 > 0.0 && n >= 2 && i < n && k <= m <= n && 0.0 < w < 2.0 && Square(psi, n)
    ensures Functional(RelaxRow(psi, omega, dx2, w, n, i, m), omega, dx2, n) <=
            Functional(RelaxRow(psi, omega, dx2, w, n, i, k), omega, dx2, n)
  {
    hide Functional, Relaxed;
    if k == m {
    } else {
      RowMonotone(psi, omega, dx2, w, n, i, k, m - 1);
      PointUpdateMonotone(RelaxRow(psi, omega, dx2, w, n, i, m - 1), omega, dx2, w, n, i, m - 1);
    }
  }

  lemma {:induction false} RowsMonotone(psi: Field, omega: Field, dx2: real, w: real, n: nat, k: nat, m: nat)
    requires dx2 > 0.0 && n >= 2 && k <= m <= n && 0.0 < w < 2.0 && Square(psi, n)
    ensures Functional(RelaxRows(psi, omega, dx2, w, n, m), omega, dx2, n) <=
            Functional(RelaxRows(psi, omega, dx2, w, n, k), omega, dx2, n)
  {
    hide Functional, RelaxRow;
    if k == m {
    } else {
      RowsMonotone(psi, omega, dx2, w, n, k, m - 1);
      RowDescends(RelaxRows(psi, omega, dx2, w, n, m - 1), omega, dx2, w, n, m - 1, n);
    }
  }

  /** The state of the sweep when it reaches the point (i, j). */
  function Reached(psi: Field, omega: Field, dx2: real, w: real, n: nat, i: nat, j: nat): Field
    requires i < n && j < n && Square(psi, n)
  {
    RelaxRow(RelaxRows(psi, omega, dx2, w, n, i), omega, dx2, w, n, i, j)
  }

  function Fall(psi: Field, omega: Field, dx2: real, w: real, n: nat): real
    requires Square(psi, n)
  {
    Functional(psi, omega, dx2, n) - Functional(RelaxRows(psi, omega, dx2, w, n, n), omega, dx2, n)
  }

  lemma ReachedEntries(psi: Field, omega: Field, dx2: real, w: real, n: nat, i: nat, j: nat, p: nat, q: nat)
    requires dx2 > 0.0 && n >= 2 && i < n && j < n && p < n && q < n && 0.0 < w < 2.0 && Square(psi, n)
    ensures var f := Reached(psi, omega, dx2, w, n, i, j);
            && (p == i && q == j ==> At(f, p, q) == At(psi, p, q))
            && Drop(w, At(f, p, q) - At(psi, p, q)) <= 4.0 * Fall(psi, omega, dx2, w, n)
  {
    hide Functional, Drop, RelaxRow, RelaxRows;
    var f := RelaxRows(psi, omega, dx2, w, n, i);
    RowsEntries(psi, omega, dx2, w, n, i, p, q);
    RowEntries(f, omega, dx2, w, n, i, j, p, q);
    RowDescends(f, omega, dx2, w, n, i, j);
    RowMonotone(f, omega, dx2, w, n, i, j, n);
    NextRow(psi, omega, dx2, w, n, i);
    RowsMonotone(psi, omega, dx2, w, n, i + 1, n);
    SweepDescends(psi, omega, dx2, w, n, i);
  }

  lemma NextRow(psi: Field, omega: Field, dx2: real, w: real, n: nat, i: nat)
    requires i < n && Square(psi, n)
    ensures RelaxRows(psi, omega, dx2, w, n, i + 1) ==
            RelaxRow(RelaxRows(psi, omega, dx2, w, n, i), omega, dx2, w, n, i, n)
  {
  }

  lemma ReachedFalls(psi: Field, omega: Field, dx2: real, w: real, n: nat, i: nat, j: nat)
    requires dx2 > 0.0 && n >= 2 && i < n && j < n && 0.0 < w < 2.0 && Square(psi, n)
    ensures Drop(w, Residual(Reached(psi, omega, dx2, w, n, i, j), omega, dx2, n, i, j)) <= Fall(psi, omega, dx2, w, n)
  {
    hide Functional, Drop, RelaxRow, RelaxRows, Relaxed;
    var f := RelaxRows(psi, omega, dx2, w, n, i);
    SweepDescends(psi, omega, dx2, w, n, i);
    RowDescends(f, omega, dx2, w, n, i, j);
    RelaxOneMore(f, omega, dx2, w, n, i, j);
    PointUpdateDescent(RelaxRow(f, omega, dx2, w, n, i, j), omega, dx2, w, n, i, j);
    RowMonotone(f, omega, dx2, w, n, i, j + 1, n);
    NextRow(psi, omega, dx2, w, n, i);
    RowsMonotone(psi, omega, dx2, w, n, i + 1, n);
  }

  /** The residual a sweep starts from is at most ten times what the sweep takes off the functional. */
  lemma ResidualIsPaidFor(psi: Field, omega: Field, dx2: real, w: real, n: nat, i: nat, j: nat)
    requires dx2 > 0.0 && n >= 2 && i < n && j < n && 0.0 < w < 2.0 && Square(psi, n)
    ensures Drop(w, Residual(psi, omega, dx2, n, i, j)) <= 10.0 * Fall(psi, omega, dx2, w, n)
  {
    hide Drop, Fall, Reached;
    var f := Reached(psi, omega, dx2, w, n, i, j);
    var ip, im, jp, jm := Next(i, n), Prev(i, n), Next(j, n), Prev(j, n);
    ReachedFalls(psi, omega, dx2, w, n, i, j);
    ReachedEntries(psi, omega, dx2, w, n, i, j, i, j);
    ReachedEntries(psi, omega, dx2, w, n, i, j, ip, j);
    ReachedEntries(psi, omega, dx2, w, n, i, j, im, j);
    ReachedEntries(psi, omega, dx2, w, n, i, j, i, jp);
    ReachedEntries(psi, omega, dx2, w, n, i, j, i, jm);
    DropOfResidual(w, Residual(psi, omega, dx2, n, i, j), Residual(f, omega, dx2, n, i, j),
                   At(f, ip, j) - At(psi, ip, j), At(f, im, j) - At(psi, im, j),
                   At(f, i, jp) - At(psi, i, jp), At(f, i, jm) - At(psi, i, jm), Fall(psi, omega, dx2, w, n));
  }

  /** The share of a squared residual that one iteration takes off the functional. */
  function Share(dx2: real, w: real): real {
    Drop(w, dx2) / 160.0
  }

  lemma ShareIsPositive(dx2: real, w: real)
    requires dx2 > 0.0 && 0.0 < w < 2.0
    ensures Share(dx2, w) > 0.0
  {
    DropIsPositive(w, dx2);
    hide Drop;
  }

  lemma ErrorIsPaidFor(psi: Field, omega: Field, dx2: real, w: real, n: nat, i: nat, j: nat)
    requires dx2 > 0.0 && n >= 2 && i < n && j < n && 0.0 < w < 2.0 && Square(psi, n)
    ensures Product(Share(dx2, w), Sq(ErrorAt(psi, omega, dx2, n, i, j))) <= Fall(psi, omega, dx2, w, n)
  {
    hide Residual, ErrorAt, Fall, Drop, Sq, Product;
    ResidualIsPaidFor(psi, omega, dx2, w, n, i, j);
    ErrorIsResidual(psi, omega, dx2, n, i, j);
    ScaleDrop(w, dx2, ErrorAt(psi, omega, dx2, n, i, j), Residual(psi, omega, dx2, n, i, j));
  }

  lemma ErrorIsResidual(psi: Field, omega: Field, dx2: real, n: nat, i: nat, j: nat)
    requires dx2 > 0.0 && i < n && j < n
    ensures dx2 * ErrorAt(psi, omega, dx2, n, i, j) == -4.0 * Residual(psi, omega, dx2, n, i, j)
  {
    var x, o := FivePoint(psi, n, i, j), At(omega, i, j);
    assert dx2 * (-x * (1.0 / dx2) - o) == -x - dx2 * o by { Undivide(dx2, x); }
    assert -x - dx2 * o == -4.0 * Residual(psi, omega, dx2, n, i, j);
  }

  lemma Undivide(c: real, x: real)
    requires c > 0.0
    ensures c * (-x * (1.0 / c)) == -x
  {
    var q := 1.0 / c;
    assert c * q == 1.0;
    assert c * (-x * q) == -x * (c * q);
  }

  lemma ScaleDrop(w: real, c: real, e: real, r: real)
    requires c * e == -4.0 * r
    ensures Product(Drop(w, c) / 160.0, Sq(e)) == Drop(w, r) / 10.0
  {
    var rate := 2.0 * (w * (2.0 - w));
    assert (c * e) * (c * e) == 16.0 * (r * r);
    assert rate * (c * c) * (e * e) == rate * ((c * e) * (c * e));
    assert rate * (16.0 * (r * r)) == 16.0 * (rate * (r * r));
  }

  // ----- bounds of sums -----

  lemma {:induction false} SumBelow(s: seq<real>, b: real)
    requires forall j :: 0 <= j < |s| ==> s[j] <= b
    ensures Sum(s) <= |s| as real * b
  {
    if s == [] {
    } else {
      SumBelow(s[1..], b);
      assert |s| as real * b == b + |s[1..]| as real * b;
    }
  }

  lemma {:induction false} TotalBelowRows(f: Field, width: nat, b: real)
    requires forall i :: 0 <= i < |f| ==> Sum(f[i]) <= width as real * b
    ensures Total(f) <= |f| as real * (width as real * b)
  {
    hide Sum;
    if f == [] {
    } else {
      TotalBelowRows(f[1..], width, b);
      OneMore(|f[1..]| as real, width as real * b);
    }
  }

  lemma OneMore(x: real, y: real)
    ensures (x + 1.0) * y == x * y + y
  {
  }

  /** A square sum is at most the number of points times any bound of the squares. */
  lemma DotBelow(f: Field, n: nat, b: real)
    requires forall i: nat, j: nat :: i < n && j < n ==> Sq(At(f, i, j)) <= b
    ensures Dot(f, f, n) <= Area(n) * b
  {
    var sq := Times(f, f, n);
    forall i | 0 <= i < n ensures Sum(sq[i]) <= n as real * b {
      forall j | 0 <= j < n ensures sq[i][j] <= b {
        assert sq[i][j] == At(sq, i, j) == Sq(At(f, i, j));
      }
      SumBelow(sq[i], b);
    }
    TotalBelowRows(sq, n, b);
    assert (n * n) as real == n as real * n as real;
    assert (n as real * n as real) * b == n as real * (n as real * b);
  }

  lemma {:induction false} EntryBelowSum(s: seq<real>, j: nat)
    requires j < |s| && forall k :: 0 <= k < |s| ==> s[k] >= 0.0
    ensures s[j] <= Sum(s)
  {
    SumNonNegative(s[1..]);
    if j == 0 {
    } else {
      EntryBelowSum(s[1..], j - 1);
    }
  }

  lemma {:induction false} RowBelowTotal(f: Field, i: nat)
    requires i < |f| && forall k :: 0 <= k < |f| ==> Sum(f[k]) >= 0.0
    ensures Sum(f[i]) <= Total(f)
  {
    RowsNonNegative(f[1..]);
    if i == 0 {
    } else {
      RowBelowTotal(f[1..], i - 1);
    }
  }

  lemma EntryBelowDot(f: Field, n: nat, i: nat, j: nat)
    requires i < n && j < n
    ensures Sq(At(f, i, j)) <= Dot(f, f, n)
  {
    var sq := Times(f, f, n);
    forall k | 0 <= k < n ensures Sum(sq[k]) >= 0.0 && forall l :: 0 <= l < n ==> sq[k][l] >= 0.0 {
      forall l | 0 <= l < n ensures sq[k][l] >= 0.0 {
        assert sq[k][l] == At(sq, k, l) == Sq(At(f, k, l));
        SquareNonNegative(At(f, k, l));
      }
      SumNonNegative(sq[k]);
    }
    EntryBelowSum(sq[i], j);
    RowBelowTotal(sq, i);
    assert sq[i][j] == At(sq, i, j) == Sq(At(f, i, j));
  }

  /** An iteration lowers the functional by a fixed share of the mean squared residual it starts from. */
  lemma MeanErrorIsPaidFor(psi: Field, omega: Field, dx2: real, w: real, n: nat)
    requires dx2 > 0.0 && n >= 2 && 0.0 < w < 2.0 && Square(psi, n)
    ensures Product(Share(dx2, w), MeanSquareError(psi, omega, dx2, n)) <= Fall(psi, omega, dx2, w, n)
  {
    hide Share, Fall, ErrorAt, Sq, Product, Dot, Area;
    AreaPositive(n);
    ShareIsPositive(dx2, w);
    var share, fall := Share(dx2, w), Fall(psi, omega, dx2, w, n);
    var e := ErrorField(psi, omega, dx2, n);
    forall i: nat, j: nat | i < n && j < n ensures Sq(At(e, i, j)) <= fall / share {
      ErrorIsPaidFor(psi, omega, dx2, w, n, i, j);
      BelowQuotient(share, Sq(At(e, i, j)), fall);
    }
    DotBelow(e, n, fall / share);
    MeanBelow(Dot(e, e, n), Area(n), fall, share);
  }

  lemma BelowQuotient(c: real, x: real, y: real)
    requires c > 0.0 && Product(c, x) <= y
    ensures x <= y / c
  {
    assert Product(c, y / c - x) == y - Product(c, x);
    FactorSign(c, y / c - x);
  }

  lemma MeanBelow(dot: real, area: real, fall: real, share: real)
    requires area > 0.0 && share > 0.0 && dot <= area * (fall / share)
    ensures Product(share, dot / area) <= fall
  {
    var q, m := fall / share, dot / area;
    assert Product(area, q - m) == area * q - dot;
    FactorSign(area, q - m);
    assert Product(share, q) == fall;
    Monotone(share, m, q);
  }

  // ----- the functional is bounded below -----

  /** Bound of the squared difference between two points k steps apart, over the squared steps of the field. */
  function Span(k: nat): (r: real)
    ensures r >= 0.0
  {
    if k == 0 then 0.0 else 2.0 * Span(k - 1) + 2.0
  }

  lemma {:induction false} SpanGrows(k: nat, m: nat)
    requires k <= m
    ensures Span(k) <= Span(m)
    decreases m
  {
    if k == m {
    } else {
      SpanGrows(k, m - 1);
    }
  }

  lemma OneStep(f: Field, n: nat, i: nat, j: nat)
    requires i < n && j < n
    ensures Sq(At(f, Next(i, n), j) - At(f, i, j)) <= Steps(f, n)
    ensures Sq(At(f, i, Next(j, n)) - At(f, i, j)) <= Steps(f, n)
  {
    hide Dot, Sq, Combine, At, East, North;
    var e, m := Combine(1.0, East(f, n), -1.0, f, n), Combine(1.0, North(f, n), -1.0, f, n);
    EntryBelowDot(e, n, i, j);
    EntryBelowDot(m, n, i, j);
    DotPositive(e, n);
    DotPositive(m, n);
    StepEntries(f, n, i, j);
  }

  lemma StepEntries(f: Field, n: nat, i: nat, j: nat)
    requires i < n && j < n
    ensures At(Combine(1.0, East(f, n), -1.0, f, n), i, j) == At(f, Next(i, n), j) - At(f, i, j)
    ensures At(Combine(1.0, North(f, n), -1.0, f, n), i, j) == At(f, i, Next(j, n)) - At(f, i, j)
  {
  }

  /** Every point value is within reach of the corner value along a grid path. */
  lemma {:induction false} WithinSpan(f: Field, n: nat, i: nat, j: nat)
    requires i < n && j < n
    ensures Sq(At(f, i, j) - At(f, 0, 0)) <= Product(Span(i + j), Steps(f, n))
    decreases i + j
  {
    hide Steps, At, Sq, Product;
    if i > 0 {
      assert Next(i - 1, n) == i;
      WithinSpan(f, n, i - 1, j);
      OneStep(f, n, i - 1, j);
      LongerPath(At(f, i, j) - At(f, i - 1, j), At(f, i - 1, j) - At(f, 0, 0), Span(i - 1 + j), Steps(f, n));
    } else if j > 0 {
      assert Next(j - 1, n) == j;
      WithinSpan(f, n, i, j - 1);
      OneStep(f, n, i, j - 1);
      LongerPath(At(f, i, j) - At(f, i, j - 1), At(f, i, j - 1) - At(f, 0, 0), Span(i + (j - 1)), Steps(f, n));
    } else {
      NoPath(Steps(f, n));
    }
  }

  lemma NoPath(steps: real)
    ensures Sq(0.0) == Product(0.0, steps) == 0.0
  {
  }

  lemma LongerPath(x: real, y: real, span: real, steps: real)
    requires Sq(x) <= steps && Sq(y) <= Product(span, steps)
    ensures Sq(x + y) <= Product(2.0 * span + 2.0, steps)
  {
    SquareOfSum(x, y);
    assert Product(2.0 * span + 2.0, steps) == 2.0 * Product(span, steps) + 2.0 * steps;
    hide Sq, Product;
  }

  function Depth(omega: Field, dx2: real, n: nat): real {
    0.5 * Product(Product(Area(n), Span(2 * n)), Product(Sq(dx2), Dot(omega, omega, n)))
  }

  /** For zero-sum vorticity the functional never falls below a bound that the vorticity alone fixes. */
  lemma FunctionalBoundedBelow(psi: Field, omega: Field, dx2: real, n: nat)
    requires n >= 1 && Square(omega, n) && Total(omega) == 0.0
    ensures Functional(psi, omega, dx2, n) >= -Depth(omega, dx2, n)
  {
    hide Dot, Steps, Total, Area, Span, OnesField, Square, Combine, At, Sq, QuadraticForm, Product;
    AreaPositive(n);
    var corner, ones := At(psi, 0, 0), OnesField(n);
    var chi := Combine(1.0, psi, -corner, ones, n);
    var span, steps := Span(2 * n), Steps(psi, n);
    StepsNonNegative(psi, n);
    SpanIsPositive(n);
    forall i: nat, j: nat | i < n && j < n ensures Sq(At(chi, i, j)) <= Product(span, steps) {
      WithinSpan(psi, n, i, j);
      SpanGrows(i + j, 2 * n);
      LargerFactor(Span(i + j), span, steps);
      CornerEntry(psi, n, i, j);
    }
    DotBelow(chi, n, Product(span, steps));
    DotCombine(omega, 1.0, psi, -corner, ones, n);
    DotOnes(omega, n);
    assert Dot(omega, chi, n) == Dot(omega, psi, n);
    var weight := Product(Area(n), span);
    ProductOfPositives(Area(n), span);
    Associate(Area(n), span, steps);
    DotCombineSelf(1.0, chi, -(weight * dx2), omega, n);
    DotCommutes(chi, omega, n);
    DotPositive(Combine(1.0, chi, -(weight * dx2), omega, n), n);
    CompleteSquare(weight, dx2, Dot(chi, chi, n), Dot(omega, psi, n), Dot(omega, omega, n), steps);
  }

  lemma Associate(x: real, y: real, z: real)
    ensures x * Product(y, z) == Product(Product(x, y), z)
  {
  }

  lemma CornerEntry(psi: Field, n: nat, i: nat, j: nat)
    requires i < n && j < n
    ensures At(Combine(1.0, psi, -At(psi, 0, 0), OnesField(n), n), i, j) == At(psi, i, j) - At(psi, 0, 0)
  {
    assert At(OnesField(n), i, j) == 1.0;
  }

  lemma SpanIsPositive(n: nat)
    requires n >= 1
    ensures Span(2 * n) > 0.0
  {
  }

  lemma LargerFactor(x: real, y: real, z: real)
    requires x <= y && z >= 0.0
    ensures Product(x, z) <= Product(y, z)
  {
  }

  lemma CompleteSquare(weight: real, d: real, xx: real, load: real, oo: real, steps: real)
    requires weight > 0.0 && xx <= Product(weight, steps)
    requires QuadraticForm(1.0, -(weight * d), xx, load, oo) >= 0.0
    ensures 0.5 * steps - d * load >= -0.5 * Product(weight, Product(Sq(d), oo))
  {
    var rest := steps - 2.0 * (d * load) + Product(weight, Product(Sq(d), oo));
    ExpandForm(weight, d, xx, load, oo);
    assert Product(weight, rest) ==
           Product(weight, steps) - 2.0 * (weight * (d * load)) + weight * (weight * (d * d * oo));
    FactorSign(weight, rest);
  }

  lemma ExpandForm(weight: real, d: real, xx: real, load: real, oo: real)
    ensures QuadraticForm(1.0, -(weight * d), xx, load, oo) ==
            xx - 2.0 * (weight * (d * load)) + weight * (weight * (d * d * oo))
  {
    var t := weight * d;
    assert (-t) * (-t) * oo == weight * (weight * (d * d * oo));
    assert t * load == weight * (d * load);
  }

  // ----- convergence -----

  /** The gauge shifts the functional by what the vorticity's sum weighs. */
  lemma GaugeShifts(psi: Field, c: real, omega: Field, dx2: real, n: nat)
    requires dx2 > 0.0 && n > 0 && Square(omega, n)
    ensures Functional(Combine(1.0, psi, -c, OnesField(n), n), omega, dx2, n) ==
            Functional(psi, omega, dx2, n) + Product(Product(dx2, Total(omega)), c)
  {
    hide Dot, Laplacian, Steps, Combine, OnesField, Total;
    StepsAlongLine(psi, -c, OnesField(n), dx2, n);
    LaplacianSumsToZero(psi, dx2, n);
    OnesHaveNoSteps(n);
    DotCombine(omega, 1.0, psi, -c, OnesField(n), n);
    DotOnes(omega, n);
    ShiftAlgebra(Steps(psi, n), Dot(omega, psi, n), dx2, c, Total(omega));
  }

  lemma ShiftAlgebra(steps: real, load: real, dx2: real, c: real, total: real)
    ensures 0.5 * (steps - 2.0 * (-c * (dx2 * 0.0)) + (-c * -c) * 0.0) - dx2 * Lin(1.0, load, -c, total) ==
            (0.5 * steps - dx2 * load) + Product(Product(dx2, total), c)
  {
  }

  /** The mean that a sweep of a zero-sum field leaves is paid for by the sweep. */
  lemma SweepMeanIsPaidFor(psi: Field, omega: Field, dx2: real, w: real, n: nat)
    requires dx2 > 0.0 && n >= 2 && 0.0 < w < 2.0 && Square(psi, n) && Total(psi) == 0.0
    ensures var swept := RelaxRows(psi, omega, dx2, w, n, n);
            Area(n) > 0.0 && Drop(w, Total(swept) / Area(n)) <= 4.0 * Fall(psi, omega, dx2, w, n)
  {
    hide Drop, Total, Dot, Area, Combine, RelaxRows, Functional, Sq, Product, At, Square;
    AreaPositive(n);
    var swept, fall, rate := RelaxRows(psi, omega, dx2, w, n, n), Fall(psi, omega, dx2, w, n), Drop(w, 1.0);
    var change := Combine(1.0, swept, -1.0, psi, n);
    DropIsPositive(w, 1.0);
    forall i: nat, j: nat | i < n && j < n ensures Sq(At(change, i, j)) <= 4.0 * fall / rate {
      RowsEntries(psi, omega, dx2, w, n, n, i, j);
      ChangeEntry(swept, psi, n, i, j);
      DropAsProduct(w, At(change, i, j));
      BelowQuotient(rate, Sq(At(change, i, j)), 4.0 * fall);
    }
    DotBelow(change, n, 4.0 * fall / rate);
    ChangeTotal(swept, psi, n);
    VarianceIsNonNegative(change, n);
    MeanOfChange(Dot(change, change, n), Total(change), Area(n), 4.0 * fall, rate);
    DropAsProduct(w, Total(swept) / Area(n));
  }

  lemma ChangeEntry(f: Field, g: Field, n: nat, i: nat, j: nat)
    requires i < n && j < n
    ensures At(Combine(1.0, f, -1.0, g, n), i, j) == At(f, i, j) - At(g, i, j)
  {
  }

  lemma ChangeTotal(f: Field, g: Field, n: nat)
    requires Square(f, n) && Square(g, n) && Total(g) == 0.0
    ensures Square(Combine(1.0, f, -1.0, g, n), n) && Total(Combine(1.0, f, -1.0, g, n)) == Total(f)
  {
    TotalCombine(Combine(1.0, f, -1.0, g, n), 1.0, f, -1.0, g, n);
    hide Total;
  }

  lemma MeanOfChange(dot: real, total: real, area: real, y: real, rate: real)
    requires area > 0.0 && rate > 0.0 && dot - total / area * total >= 0.0 && dot <= area * (y / rate)
    ensures Product(rate, Sq(total / area)) <= y
  {
    var m := total / area;
    assert m * area == total;
    assert m * total == area * Sq(m);
    assert Product(area, y / rate - Sq(m)) == area * (y / rate) - area * Sq(m);
    FactorSign(area, y / rate - Sq(m));
    Monotone(rate, Sq(m), y / rate);
    assert Product(rate, y / rate) == y;
  }

  /** What the gauge can give back in one iteration, twice over. */
  function Excess(omega: Field, dx2: real, w: real): real
    requires 0.0 < w < 2.0
  {
    DropIsPositive(w, 1.0);
    4.0 * Sq(Product(dx2, Total(omega))) / Drop(w, 1.0)
  }

  lemma MixedProduct(rate: real, load: real, c: real)
    requires rate > 0.0
    ensures 2.0 * Product(load, c) <= Product(rate, Sq(c)) / 4.0 + 4.0 * Sq(load) / rate
  {
    var q := load / rate;
    assert q * rate == load;
    SquareNonNegative(0.5 * c - 2.0 * q);
    assert Sq(0.5 * c - 2.0 * q) == 0.25 * Sq(c) - 2.0 * (c * q) + 4.0 * Sq(q);
    Monotone(rate, 0.0, Sq(0.5 * c - 2.0 * q));
    assert rate * (c * q) == Product(load, c);
    QuotientSquare(load, rate);
    assert rate * (0.25 * Sq(c) - 2.0 * (c * q) + 4.0 * Sq(q)) ==
           0.25 * (rate * Sq(c)) - 2.0 * (rate * (c * q)) + 4.0 * (rate * Sq(q));
  }

  lemma QuotientSquare(x: real, y: real)
    requires y > 0.0
    ensures 4.0 * (y * Sq(x / y)) == 4.0 * Sq(x) / y
  {
    var q := x / y;
    assert q * y == x;
    assert Sq(x) == (y * Sq(q)) * y;
    assert (y * Sq(q)) * y / y == y * Sq(q);
  }

  lemma {:induction false} IterateHasZeroSum(omega: Field, dx2: real, w: real, n: nat, k: nat)
    requires n >= 1
    ensures Total(Iterate(omega, dx2, w, n, k)) == 0.0
  {
    hide RelaxRows, Total;
    if k == 0 {
      TotalZero(ZeroField(n), n);
    } else {
      GaugeHasZeroSum(RelaxRows(Iterate(omega, dx2, w, n, k - 1), omega, dx2, w, n, n), n);
    }
  }

  /** An iteration pays for the mean squared residual it starts from, up to the excess. */
  lemma IterationIsPaidFor(omega: Field, dx2: real, w: real, n: nat, k: nat)
    requires dx2 > 0.0 && n >= 2 && 0.0 < w < 2.0 && Square(omega, n)
    ensures var now, next := Iterate(omega, dx2, w, n, k), Iterate(omega, dx2, w, n, k + 1);
            0.0 <= Product(Share(dx2, w), MeanSquareError(now, omega, dx2, n)) <=
            2.0 * (Functional(now, omega, dx2, n) - Functional(next, omega, dx2, n)) + Excess(omega, dx2, w)
  {
    hide Functional, RelaxRows, Share, MeanSquareError, Product, Total, Area, OnesField, Iterate, Drop, Sq;
    var now := Iterate(omega, dx2, w, n, k);
    var swept := RelaxRows(now, omega, dx2, w, n, n);
    IterateHasZeroSum(omega, dx2, w, n, k);
    MeanErrorIsPaidFor(now, omega, dx2, w, n);
    MeanSquareNonNegative(now, omega, dx2, n);
    ShareIsPositive(dx2, w);
    NonNegativeProduct(Share(dx2, w), MeanSquareError(now, omega, dx2, n));
    SweepMeanIsPaidFor(now, omega, dx2, w, n);
    NextIterate(omega, dx2, w, n, k);
    AreaPositive(n);
    var c := Total(swept) / Area(n);
    GaugeShifts(swept, c, omega, dx2, n);
    DropIsPositive(w, 1.0);
    DropAsProduct(w, c);
    MixedProduct(Drop(w, 1.0), Product(dx2, Total(omega)), c);
  }

  lemma NonNegativeProduct(x: real, y: real)
    requires x >= 0.0 && y >= 0.0
    ensures Product(x, y) >= 0.0
  {
  }

  lemma {:induction false} IteratesFall(omega: Field, dx2: real, w: real, n: nat, k: nat, m: nat)
    requires dx2 > 0.0 && n >= 2 && 0.0 < w < 2.0 && Square(omega, n) && k <= m
    ensures 2.0 * Functional(Iterate(omega, dx2, w, n, m), omega, dx2, n) <=
            2.0 * Functional(Iterate(omega, dx2, w, n, k), omega, dx2, n)
            + Product((m - k) as real, Excess(omega, dx2, w))
    decreases m
  {
    hide Functional, Iterate, Excess, Share, MeanSquareError, Product;
    if k == m {
      assert (m - k) as real == 0.0;
      ZeroTimes(Excess(omega, dx2, w));
    } else {
      IteratesFall(omega, dx2, w, n, k, m - 1);
      IterationIsPaidFor(omega, dx2, w, n, m - 1);
      NextMultiple((m - k) as real, (m - 1 - k) as real, Excess(omega, dx2, w));
    }
  }

  lemma NextMultiple(z: real, x: real, y: real)
    requires z == x + 1.0
    ensures Product(z, y) == Product(x, y) + y
  {
  }

  lemma ZeroTimes(x: real)
    ensures Product(0.0, x) == 0.0
  {
  }

  lemma NineTimes(x: real, y: real)
    requires x == 9.0
    ensures Product(x, y) == 9.0 * y
  {
  }

  /** What one check costs the functional, twice over, when its mean squared residual is at least `least`. */
  function CheckCost(omega: Field, dx2: real, w: real, least: real): real
    requires 0.0 < w < 2.0
  {
    Product(Share(dx2, w), least) - 10.0 * Excess(omega, dx2, w)
  }

  /** As long as the checked residuals stay above `least`, every check has cost the functional a fixed amount. */
  lemma {:induction false} ChecksCost(omega: Field, dx2: real, w: real, n: nat, least: real, m: nat)
    requires dx2 > 0.0 && n >= 2 && 0.0 < w < 2.0 && Square(omega, n)
    requires forall i: nat :: 1 <= i <= m ==> MeanSquareError(Iterate(omega, dx2, w, n, 10 * i), omega, dx2, n) >= least
    ensures 2.0 * Functional(Iterate(omega, dx2, w, n, 10 * m + 1), omega, dx2, n) <=
            Excess(omega, dx2, w) - m as real * CheckCost(omega, dx2, w, least)
  {
    hide Functional, Iterate, Share, MeanSquareError, Product, Excess;
    if m == 0 {
      ZeroStart(omega, dx2, w, n);
      IterationIsPaidFor(omega, dx2, w, n, 0);
    } else {
      ChecksCost(omega, dx2, w, n, least, m - 1);
      IteratesFall(omega, dx2, w, n, 10 * (m - 1) + 1, 10 * m);
      IterationIsPaidFor(omega, dx2, w, n, 10 * m);
      ShareIsPositive(dx2, w);
      Monotone(Share(dx2, w), least, MeanSquareError(Iterate(omega, dx2, w, n, 10 * m), omega, dx2, n));
      NineTimes((10 * m - (10 * (m - 1) + 1)) as real, Excess(omega, dx2, w));
      OneMore((m - 1) as real, CheckCost(omega, dx2, w, least));
    }
  }

  /** A zero-sum field does not see the mean of the vorticity. */
  lemma FunctionalIgnoresMean(psi: Field, omega: Field, dx2: real, n: nat)
    requires n >= 1 && Square(psi, n) && Total(psi) == 0.0
    ensures Functional(psi, omega, dx2, n) == Functional(psi, Gauge(omega, n), dx2, n)
  {
    hide Dot, Steps, Total, Area, OnesField, Combine;
    AreaPositive(n);
    var mean := Total(omega) / Area(n);
    DotCombine(psi, 1.0, omega, -mean, OnesField(n), n);
    DotCommutes(psi, omega, n);
    DotCommutes(psi, Gauge(omega, n), n);
    DotOnes(psi, n);
  }

  /** Iteration `k` is a checked one and its root mean square residual is within tolerance. */
  ghost predicate ConvergedAt(vorticity: Field, dx2: real, relaxation: real, tolerance: real, n: nat, k: nat,
                              sqrt: real -> real)
    requires n >= 1 && dx2 > 0.0
  {
    k % 10 == 0 && sqrt(MeanSquareError(Iterate(vorticity, dx2, relaxation, n, k), vorticity, dx2, n)) <= tolerance
  }

  /** The sum of the vorticity is small against the tolerance; zero always is. */
  predicate MeanAllows(omega: Field, w: real, tolerance: real) {
    -Product(Drop(w, 1.0), tolerance) < 80.0 * Total(omega) < Product(Drop(w, 1.0), tolerance)
  }

  lemma ZeroMeanAllows(omega: Field, w: real, tolerance: real)
    requires 0.0 < w < 2.0 && tolerance > 0.0 && Total(omega) == 0.0
    ensures MeanAllows(omega, w, tolerance)
  {
    DropIsPositive(w, 1.0);
    ProductOfPositives(Drop(w, 1.0), tolerance);
    hide Total, Drop;
  }

  /** Then a check above the tolerance costs more than the gauge gives back until the next one. */
  lemma CheckCostIsPositive(omega: Field, dx2: real, w: real, tolerance: real)
    requires dx2 > 0.0 && 0.0 < w < 2.0 && tolerance > 0.0 && MeanAllows(omega, w, tolerance)
    ensures CheckCost(omega, dx2, w, Sq(tolerance)) > 0.0
  {
    hide Total, Drop, Sq, Product;
    var rate, total := Drop(w, 1.0), Total(omega);
    DropIsPositive(w, 1.0);
    DropAsProduct(w, dx2);
    var cost := Product(Product(rate, Sq(dx2)) / 160.0, Sq(tolerance));
    var excess := 4.0 * Sq(Product(dx2, total)) / rate;
    SquaresCompare(80.0 * total, Product(rate, tolerance));
    SquareIsPositive(dx2);
    ScaledCost(rate, dx2, tolerance);
    ScaledExcess(rate, dx2, total);
    Positive(Sq(dx2), Sq(Product(rate, tolerance)) - Sq(80.0 * total));
    assert Product(rate, cost - 10.0 * excess) > 0.0 by {
      CostGap(rate, cost, excess, Sq(dx2), Sq(Product(rate, tolerance)), Sq(80.0 * total));
    }
    PositiveFactor(rate, cost - 10.0 * excess);
  }

  lemma SquaresCompare(x: real, y: real)
    requires -y < x < y
    ensures Sq(x) < Sq(y)
  {
    ProductOfPositives(y - x, y + x);
    assert Product(y - x, y + x) == Sq(y) - Sq(x);
  }

  lemma ScaledCost(rate: real, dx2: real, tolerance: real)
    ensures Product(rate, Product(Product(rate, Sq(dx2)) / 160.0, Sq(tolerance))) ==
            Product(Sq(dx2), Sq(Product(rate, tolerance))) / 160.0
  {
    var dd, tt := dx2 * dx2, tolerance * tolerance;
    assert (rate * tolerance) * (rate * tolerance) == (rate * rate) * tt;
    assert rate * ((rate * dd / 160.0) * tt) == ((rate * rate) * (dd * tt)) / 160.0;
    assert dd * ((rate * rate) * tt) == (rate * rate) * (dd * tt);
  }

  lemma ScaledExcess(rate: real, dx2: real, total: real)
    requires rate > 0.0
    ensures Product(rate, 4.0 * Sq(Product(dx2, total)) / rate) == Product(Sq(dx2), Sq(80.0 * total)) / 1600.0
  {
    var x := 4.0 * Sq(Product(dx2, total));
    assert (x / rate) * rate == x;
    assert Sq(Product(dx2, total)) == (dx2 * dx2) * (total * total);
    assert Sq(80.0 * total) == 6400.0 * (total * total);
    assert (dx2 * dx2) * (6400.0 * (total * total)) == 6400.0 * ((dx2 * dx2) * (total * total));
  }

  lemma Positive(x: real, y: real)
    requires x > 0.0 && y > 0.0
    ensures Product(x, y) > 0.0
  {
  }

  lemma CostGap(rate: real, cost: real, excess: real, dd: real, big: real, small: real)
    requires Product(rate, cost) == Product(dd, big) / 160.0 && Product(rate, excess) == Product(dd, small) / 1600.0
    requires Product(dd, big - small) > 0.0
    ensures Product(rate, cost - 10.0 * excess) > 0.0
  {
    assert Product(rate, cost - 10.0 * excess) == Product(rate, cost) - 10.0 * Product(rate, excess);
    assert Product(dd, big - small) == Product(dd, big) - Product(dd, small);
  }

  lemma PositiveFactor(c: real, x: real)
    requires c > 0.0 && Product(c, x) > 0.0
    ensures x > 0.0
  {
  }

  /** Iterations that always suffice for the tolerance. */
  function Enough(omega: Field, dx2: real, w: real, tolerance: real, n: nat): nat
    requires dx2 > 0.0 && n >= 1 && 0.0 < w < 2.0 && tolerance > 0.0 && MeanAllows(omega, w, tolerance)
  {
    CheckCostIsPositive(omega, dx2, w, tolerance);
    10 * Above((Excess(omega, dx2, w) + 2.0 * Depth(Gauge(omega, n), dx2, n)) / CheckCost(omega, dx2, w, Sq(tolerance)))
  }

  /** A positive whole number above x. */
  function Above(x: real): (r: nat)
    ensures r >= 1 && r as real > x
  {
    if x < 0.0 then 1 else x.Floor + 1
  }

  lemma RootAbove(sqrt: real -> real, m: real, tolerance: real)
    requires IsRoot(sqrt) && m >= 0.0 && tolerance > 0.0
    ensures sqrt(m) <= tolerance <==> m <= Sq(tolerance)
  {
    var r := sqrt(m);
    assert r >= 0.0 && Sq(r) == m;
    assert Sq(tolerance) - Sq(r) == Product(tolerance + r, tolerance - r);
    if r <= tolerance {
      assert Product(tolerance + r, tolerance - r) >= 0.0;
    } else {
      ProductOfPositives(tolerance + r, r - tolerance);
    }
  }

  /** When the mean is small against the tolerance, some check within `Enough` iterations succeeds; for zero-sum
      vorticity that covers every positive tolerance. */
  lemma SolverConverges(omega: Field, dx2: real, w: real, tolerance: real, n: nat, sqrt: real -> real)
    requires dx2 > 0.0 && n >= 2 && 0.0 < w < 2.0 && tolerance > 0.0 && IsRoot(sqrt)
    requires Square(omega, n) && MeanAllows(omega, w, tolerance)
    ensures exists k: nat ::
              && 1 <= k <= Enough(omega, dx2, w, tolerance, n)
              && ConvergedAt(omega, dx2, w, tolerance, n, k, sqrt)
  {
    hide Functional, Iterate, Total, MeanSquareError, Product, Depth, Sq, IsRoot, Excess, CheckCost, MeanAllows, Enough;
    var m := Enough(omega, dx2, w, tolerance, n) / 10;
    EnoughCosts(omega, dx2, w, tolerance, n);
    if forall i: nat ::
         1 <= i <= m ==> MeanSquareError(Iterate(omega, dx2, w, n, 10 * i), omega, dx2, n) >= Sq(tolerance)
    {
      ChecksCost(omega, dx2, w, n, Sq(tolerance), m);
      IterateAboveDepth(omega, dx2, w, n, 10 * m + 1);
      assert false;
    }
    var i: nat :| 1 <= i <= m && MeanSquareError(Iterate(omega, dx2, w, n, 10 * i), omega, dx2, n) < Sq(tolerance);
    MeanSquareNonNegative(Iterate(omega, dx2, w, n, 10 * i), omega, dx2, n);
    RootAbove(sqrt, MeanSquareError(Iterate(omega, dx2, w, n, 10 * i), omega, dx2, n), tolerance);
    assert ConvergedAt(omega, dx2, w, tolerance, n, 10 * i, sqrt);
  }

  lemma IterateAboveDepth(omega: Field, dx2: real, w: real, n: nat, k: nat)
    requires n >= 1 && Square(omega, n)
    ensures Functional(Iterate(omega, dx2, w, n, k), omega, dx2, n) >= -Depth(Gauge(omega, n), dx2, n)
  {
    hide Functional, Iterate, Total, Depth, Gauge;
    IterateHasZeroSum(omega, dx2, w, n, k);
    FunctionalIgnoresMean(Iterate(omega, dx2, w, n, k), omega, dx2, n);
    GaugeHasZeroSum(omega, n);
    FunctionalBoundedBelow(Iterate(omega, dx2, w, n, k), Gauge(omega, n), dx2, n);
  }

  lemma EnoughCosts(omega: Field, dx2: real, w: real, tolerance: real, n: nat)
    requires dx2 > 0.0 && n >= 1 && 0.0 < w < 2.0 && tolerance > 0.0 && MeanAllows(omega, w, tolerance)
    ensures var m := Enough(omega, dx2, w, tolerance, n) / 10;
            && Enough(omega, dx2, w, tolerance, n) == 10 * m
            && m as real * CheckCost(omega, dx2, w, Sq(tolerance)) >
               Excess(omega, dx2, w) + 2.0 * Depth(Gauge(omega, n), dx2, n)
  {
    hide Depth, Sq, Product, Excess, CheckCost, MeanAllows, Gauge;
    CheckCostIsPositive(omega, dx2, w, tolerance);
    var cost := CheckCost(omega, dx2, w, Sq(tolerance));
    var depth := Excess(omega, dx2, w) + 2.0 * Depth(Gauge(omega, n), dx2, n);
    ExceedsQuotient(Above(depth / cost) as real, depth, cost);
  }

  lemma SquareIsPositive(x: real)
    requires x > 0.0
    ensures Sq(x) > 0.0
  {
    ProductOfPositives(x, x);
  }

  lemma ExceedsQuotient(m: real, x: real, c: real)
    requires c > 0.0 && m > x / c
    ensures m * c > x
  {
    assert (x / c) * c == x;
    ProductOfPositives(m - x / c, c);
  }

  /** The mean of the vorticity stays in the residual: no iterate can bring the residual below it. */
  lemma ResidualCarriesMean(psi: Field, omega: Field, dx2: real, n: nat)
    requires dx2 > 0.0 && n >= 1 && Square(omega, n)
    ensures Area(n) > 0.0 && MeanSquareError(psi, omega, dx2, n) >= Sq(Total(omega) / Area(n))
  {
    hide Dot, Total, Area, ErrorField, OnesField, Laplacian, Square;
    AreaPositive(n);
    var e := ErrorField(psi, omega, dx2, n);
    ErrorFieldTotal(psi, omega, dx2, n);
    VarianceIsNonNegative(e, n);
    MeanAlgebra(Dot(e, e, n), Total(omega), Area(n));
  }

  lemma ErrorFieldTotal(psi: Field, omega: Field, dx2: real, n: nat)
    requires dx2 > 0.0 && n >= 1 && Square(omega, n)
    ensures Square(ErrorField(psi, omega, dx2, n), n) && Total(ErrorField(psi, omega, dx2, n)) == -Total(omega)
  {
    var e, lap := ErrorField(psi, omega, dx2, n), Laplacian(psi, dx2, n);
    forall i: nat, j: nat | i < n && j < n ensures At(e, i, j) == Lin(-1.0, At(lap, i, j), -1.0, At(omega, i, j)) {
      var x := FivePoint(psi, n, i, j);
      assert -x * (1.0 / dx2) == -(x / dx2);
      hide FivePoint;
    }
    TotalOfLaplacian(psi, dx2, n);
    TotalCombine(e, -1.0, lap, -1.0, omega, n);
    hide Total;
  }

  lemma MeanAlgebra(ee: real, total: real, area: real)
    requires area > 0.0 && ee - (-total) / area * (-total) >= 0.0
    ensures ee / area >= Sq(total / area)
  {
    var m := total / area;
    assert m * area == total && (-total) / area == -m;
    assert (-m) * (-total) == Product(area, Sq(m));
    assert Product(area, ee / area - Sq(m)) == ee - Product(area, Sq(m));
    FactorSign(area, ee / area - Sq(m));
  }

  // ----- the solver -----

  ghost predicate Accepts(vorticity: Field, tolerance: real, maxIterations: int, relaxation: real) {
    var n := |vorticity|;
    && n >= MIN_SIZE && n % 2 == 0 && Square(vorticity, n)
    && Area(n) > 0.0 && -MEAN_LIMIT <= Total(vorticity) / Area(n) <= MEAN_LIMIT
    && tolerance > 0.0 && maxIterations >= 1 && 0.0 < relaxation < 2.0
  }

  lemma MeanWithinTolerance(psi: Field, omega: Field, dx2: real, n: nat, rms: real, tolerance: real)
    requires dx2 > 0.0 && n >= 1 && Square(omega, n) && 0.0 <= rms <= tolerance
    requires Sq(rms) == MeanSquareError(psi, omega, dx2, n)
    ensures Area(n) > 0.0 && -tolerance <= Total(omega) / Area(n) <= tolerance
  {
    hide Total, Area, MeanSquareError, Sq, Square;
    ResidualCarriesMean(psi, omega, dx2, n);
    WithinRoot(Total(omega) / Area(n), rms);
  }

  lemma WithinRoot(x: real, y: real)
    requires y >= 0.0 && Sq(x) <= Sq(y)
    ensures -y <= x <= y
  {
    assert Sq(x) - Sq(y) == Product(x + y, x - y) == Product(-x - y, y - x);
    if x > y {
      ProductOfPositives(x + y, x - y);
    }
    if x < -y {
      ProductOfPositives(-x - y, y - x);
    }
  }

  /** The solver answers with the first checked iterate within tolerance, and fails only if there is none; enough
      iterations suffice when the mean is small against the tolerance, and none do when the mean exceeds it. */
  method SolvePeriodicPoissonFd(vorticity: Field, twoPi: real, tolerance: real, maxIterations: int, relaxation: real,
                              sqrt: real -> real)
    returns (r: Result<array2<real>, string>, rms: real, iteration: nat)
    requires twoPi > 0.0 && IsRoot(sqrt)
    ensures r.Success? ==> Accepts(vorticity, tolerance, maxIterations, relaxation)
    ensures Accepts(vorticity, tolerance, maxIterations, relaxation) ==>
              var n := |vorticity|;
              var dx2 := SpacingSquared(twoPi, n);
              && dx2 > 0.0
              && (r.Failure? <==> forall k: nat :: 1 <= k <= maxIterations ==>
                 !ConvergedAt(vorticity, dx2, relaxation, tolerance, n, k, sqrt))
              && (r.Success? ==>
                    && 1 <= iteration <= maxIterations
                    && ConvergedAt(vorticity, dx2, relaxation, tolerance, n, iteration, sqrt)
                    && forall k: nat :: 1 <= k < iteration ==>
                       !ConvergedAt(vorticity, dx2, relaxation, tolerance, n, k, sqrt))
    ensures Accepts(vorticity, tolerance, maxIterations, relaxation) && MeanAllows(vorticity, relaxation, tolerance) ==>
              var dx2 := SpacingSquared(twoPi, |vorticity|);
              dx2 > 0.0 && (maxIterations >= Enough(vorticity, dx2, relaxation, tolerance, |vorticity|) ==> r.Success?)
    ensures r.Success? ==> Area(|vorticity|) > 0.0 && -tolerance <= Total(vorticity) / Area(|vorticity|) <= tolerance
    ensures r.Success? ==>
              var n, psi := |vorticity|, r.value;
              && fresh(psi) && psi.Length0 == psi.Length1 == n
              && var dx2 := SpacingSquared(twoPi, n);
                 var answer := Snapshot(psi, n);
                 && dx2 > 0.0
                 && answer == Iterate(vorticity, dx2, relaxation, n, iteration)
                 && rms >= 0.0 && Sq(rms) == MeanSquareError(answer, vorticity, dx2, n)
                 && Total(answer) == 0.0
                 && (Total(vorticity) == 0.0 ==> Functional(answer, vorticity, dx2, n) <= 0.0)
  {
    hide Iterate, Total, Area, RelaxRows, Gauge, MeanSquareError, Functional, SpacingSquared, Enough, Sq, IsRoot,
         ZeroField, Snapshot, MeanAllows;
    var n := |vorticity|;
    rms, iteration := 0.0, 0;
    if n < 8 || n % 2 != 0 {
      return Failure("G4 requires an even grid_size >= 8"), rms, iteration;
    }
    if exists i :: 0 <= i < n && |vorticity[i]| != n {
      return Failure("vorticity must be square"), rms, iteration;
    }
    AreaPositive(n);
    var mean := Total(vorticity) / Area(n);
    if mean > 0.000000000001 || mean < -0.000000000001 {
      return Failure("periodic Poisson solve requires near-zero mean vorticity"), rms, iteration;
    }
    if tolerance <= 0.0 || maxIterations < 1 {
      return Failure("invalid Poisson convergence controls"), rms, iteration;
    }
    if !(0.0 < relaxation < 2.0) {
      return Failure("SOR relaxation must be in (0, 2)"), rms, iteration;
    }
    var dx2 := SpacingSquared(twoPi, n);
    SpacingSquaredArea(twoPi, n);
    var psi := new real[n, n]((i, j) => 0.0);
    if MeanAllows(vorticity, relaxation, tolerance) {
      SolverConverges(vorticity, dx2, relaxation, tolerance, n, sqrt);
    }
    assert Snapshot(psi, n) == Iterate(vorticity, dx2, relaxation, n, 0) by {
      FirstIterate(vorticity, dx2, relaxation, n, Snapshot(psi, n));
    }
    while iteration < maxIterations
      invariant iteration <= maxIterations
      invariant Snapshot(psi, n) == Iterate(vorticity, dx2, relaxation, n, iteration)
      invariant forall k: nat :: 1 <= k <= iteration ==> !ConvergedAt(vorticity, dx2, relaxation, tolerance, n, k, sqrt)
    {
      Sweep(psi, vorticity, dx2, relaxation);
      ghost var swept := Snapshot(psi, n);
      SubtractMean(psi);
      NextIterate(vorticity, dx2, relaxation, n, iteration);
      iteration := iteration + 1;
      if iteration % 10 == 0 {
        rms := PoissonResidualRms(psi, vorticity, dx2, sqrt);
        if rms <= tolerance {
          GaugeHasZeroSum(swept, n);
          if Total(vorticity) == 0.0 {
            IteratesStayBelowStart(vorticity, dx2, relaxation, n, iteration);
          }
          MeanWithinTolerance(Snapshot(psi, n), vorticity, dx2, n, rms, tolerance);
          assert ConvergedAt(vorticity, dx2, relaxation, tolerance, n, iteration, sqrt);
          return Success(psi), rms, iteration;
        }
      }
    }
    r := Failure("periodic SOR Poisson solve failed to converge");
  }
}
