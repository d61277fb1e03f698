/** How fast a transient run approaches the steady profile: every step shrinks the squared distance by a factor below
    one that the scheme and the number of grid intervals fix, so every run converges. */
module HartmannDecay {
  import opened Hartmann
  import opened RealArith

  // ----- the error at the start of a step, seen from the midpoint -----

  /** Bound of the row sums of the operator that takes the midpoint back to the start of the step. */
  function Spread(c: Scheme): real
    requires c.Valid()
  {
    1.0 + 4.0 * c.Ratio() + c.DampingHalf()
  }

  lemma SpreadAtLeastOne(c: Scheme)
    requires c.Valid()
    ensures Spread(c) >= 1.0
  {
    RatioPositive(c);
  }

  /** A weighted sum, squared, is at most the weights' sum times the weighted squares. */
  lemma WeightedSquare(p: real, r: real, x: real, y: real, z: real)
    requires p >= 0.0 && r >= 0.0
    ensures Sq(Product(p, x) - Product(r, y) - Product(r, z)) <=
            Product(p + 2.0 * r, Product(p, Sq(x)) + Product(r, Sq(y)) + Product(r, Sq(z)))
  {
    SquareNonNegative(x + y);
    SquareNonNegative(x + z);
    SquareNonNegative(y - z);
    NonNegative(Product(p, r), Sq(x + y));
    NonNegative(Product(p, r), Sq(x + z));
    NonNegative(Product(r, r), Sq(y - z));
    WeightedIdentity(p, r, x, y, z);
    assert Product(p, r) >= 0.0 && Product(r, r) >= 0.0;
  }

  lemma NonNegative(x: real, y: real)
    requires x >= 0.0 && y >= 0.0
    ensures Product(x, y) >= 0.0
  {
  }

  lemma WeightedIdentity(p: real, r: real, x: real, y: real, z: real)
    ensures Product(p + 2.0 * r, Product(p, Sq(x)) + Product(r, Sq(y)) + Product(r, Sq(z)))
            - Sq(Product(p, x) - Product(r, y) - Product(r, z)) ==
            Product(Product(p, r), Sq(x + y)) + Product(Product(p, r), Sq(x + z)) + Product(Product(r, r), Sq(y - z))
  {
    var pp, pr, rr := p * p, p * r, r * r;
    var xx, yy, zz, xy, xz, yz := x * x, y * y, z * z, x * y, x * z, y * z;
    ThreeTerms(p * x, r * y, r * z);
    Squared(p, x, p, x);
    Squared(r, y, r, y);
    Squared(r, z, r, z);
    Squared(p, x, r, y);
    Squared(p, x, r, z);
    Squared(r, y, r, z);
    ExpandWeights(p, r, xx, yy, zz);
    WeightedSum(pr, x, y);
    WeightedSum(pr, x, z);
    WeightedSum(rr, y, -z);
    assert rr * (y * -z) == -(rr * yz);
  }

  lemma WeightedSum(c: real, x: real, y: real)
    ensures Product(c, Sq(x + y)) == c * (x * x) + 2.0 * (c * (x * y)) + c * (y * y)
  {
    Expand(c, x * x, 2.0 * (x * y), y * y);
    assert c * (2.0 * (x * y)) == 2.0 * (c * (x * y));
  }

  lemma ExpandWeights(p: real, r: real, x: real, y: real, z: real)
    ensures Product(p + 2.0 * r, Product(p, x) + Product(r, y) + Product(r, z)) ==
            (p * p) * x + (p * r) * y + (p * r) * z + 2.0 * ((p * r) * x) + 2.0 * ((r * r) * y) + 2.0 * ((r * r) * z)
  {
    Expand(p, p * x, r * y, r * z);
    Expand(r, p * x, r * y, r * z);
    assert p * (p * x) == (p * p) * x && p * (r * y) == (p * r) * y && p * (r * z) == (p * r) * z;
    assert r * (p * x) == (p * r) * x && r * (r * y) == (r * r) * y && r * (r * z) == (r * r) * z;
    assert Product(p + 2.0 * r, p * x + r * y + r * z) ==
           Product(p, p * x + r * y + r * z) + 2.0 * Product(r, p * x + r * y + r * z);
  }

  lemma Expand(c: real, x: real, y: real, z: real)
    ensures Product(c, x + y + z) == c * x + c * y + c * z
  {
  }

  lemma ThreeTerms(a: real, b: real, c: real)
    ensures Sq(a - b - c) == a * a + b * b + c * c - 2.0 * (a * b) - 2.0 * (a * c) + 2.0 * (b * c)
  {
  }

  lemma Squared(p: real, x: real, r: real, y: real)
    ensures (p * x) * (r * y) == (p * r) * (x * y)
  {
  }

  /** The unforced step read backwards: its start is a bounded stencil of its midpoint. */
  lemma StartFromMidpoint(e: seq<real>, f: seq<real>, c: Scheme, i: nat)
    requires c.Valid() && |f| == |e| && 1 <= i < |e| - 1 && CnEquation(e, f, c, 0.0, i)
    ensures var m, r, d := Midpoint(e, f), c.Ratio(), c.DampingHalf();
            && e[i] == Product(1.0 + 2.0 * r + d, m[i]) - Product(r, m[i - 1]) - Product(r, m[i + 1])
            && Sq(e[i]) <= Product(Spread(c), Product(1.0 + 2.0 * r + d, Sq(m[i])) + Product(r, Sq(m[i - 1]))
                                              + Product(r, Sq(m[i + 1])))
  {
    var m, r, d := Midpoint(e, f), c.Ratio(), c.DampingHalf();
    RatioPositive(c);
    Increment(e, f, c, 0.0, i);
    hide Scheme.Ratio, Scheme.DampingHalf, CnEquation, Sq;
    assert 2.0 * m[i] == e[i] + f[i];
    BackStencil(r, d, e[i], f[i], m[i - 1], m[i], m[i + 1], 0.0 * c.dt);
    WeightedSquare(1.0 + 2.0 * r + d, r, m[i], m[i - 1], m[i + 1]);
  }

  lemma BackStencil(r: real, d: real, e: real, f: real, west: real, m: real, east: real, force: real)
    requires force == 0.0 && 2.0 * m == e + f
    requires f - e == 2.0 * (r * (west - 2.0 * m + east)) - 2.0 * (d * m) + force
    ensures e == Product(1.0 + 2.0 * r + d, m) - Product(r, west) - Product(r, east)
  {
    assert r * (west - 2.0 * m + east) == r * west - 2.0 * (r * m) + r * east;
    assert Product(1.0 + 2.0 * r + d, m) == m + 2.0 * (r * m) + d * m;
  }

  function SquaresBefore(m: seq<real>, k: nat): real
    requires k < |m|
  {
    if k == 0 then 0.0 else SquaresTo(m, k - 1)
  }

  function StencilSquares(m: seq<real>, c: Scheme, k: nat): real
    requires c.Valid() && k + 1 < |m|
  {
    Product(1.0 + 2.0 * c.Ratio() + c.DampingHalf(), SquaresTo(m, k))
    + Product(c.Ratio(), SquaresBefore(m, k)) + Product(c.Ratio(), SquaresTo(m, k + 1))
  }

  lemma {:induction false} StartSquares(e: seq<real>, f: seq<real>, c: Scheme, k: nat)
    requires c.Valid() && CnStep(e, f, c, 0.0) && ZeroEnds(e) && k + 1 < |e|
    ensures SquaresTo(e, k) <= Product(Spread(c), StencilSquares(Midpoint(e, f), c, k))
  {
    hide Scheme.Ratio, Scheme.DampingHalf, CnEquation, Sq, Product;
    var m := Midpoint(e, f);
    RatioPositive(c);
    SpreadAtLeastOne(c);
    if k == 0 {
      SquareNonNegative(m[1]);
      NoStencil(c, Sq(m[1]));
      assert SquaresTo(m, 1) == Sq(m[1]);
    } else {
      StartSquares(e, f, c, k - 1);
      assert CnEquation(e, f, c, 0.0, k);
      StartFromMidpoint(e, f, c, k);
      assert m[0] == 0.0;
      SquareOfZero();
      var p, r := 1.0 + 2.0 * c.Ratio() + c.DampingHalf(), c.Ratio();
      AddSquares(p, SquaresTo(m, k - 1), Sq(m[k]));
      AddSquares(r, SquaresBefore(m, k - 1), Sq(m[k - 1]));
      AddSquares(r, SquaresTo(m, k), Sq(m[k + 1]));
      AddSquares(Spread(c), StencilSquares(m, c, k - 1),
                 Product(p, Sq(m[k])) + Product(r, Sq(m[k - 1])) + Product(r, Sq(m[k + 1])));
    }
  }

  lemma SquareOfZero()
    ensures Sq(0.0) == 0.0
  {
  }

  lemma NoStencil(c: Scheme, x: real)
    requires c.Valid() && x >= 0.0
    ensures Product(Spread(c), Product(1.0 + 2.0 * c.Ratio() + c.DampingHalf(), 0.0) + Product(c.Ratio(), 0.0)
                               + Product(c.Ratio(), x)) >= 0.0
  {
    RatioPositive(c);
    SpreadAtLeastOne(c);
    NonNegative(c.Ratio(), x);
    NonNegative(Spread(c), Product(c.Ratio(), x));
  }

  lemma AddSquares(c: real, x: real, y: real)
    ensures Product(c, x + y) == Product(c, x) + Product(c, y)
  {
  }

  /** The squared start of an unforced step is at most Spread^2 times the squared midpoint. */
  lemma StartBelowMidpoint(e: seq<real>, f: seq<real>, c: Scheme)
    requires c.Valid() && CnStep(e, f, c, 0.0) && ZeroEnds(e)
    ensures SquaresTo(e, |e| - 2) <= Product(Sq(Spread(c)), SquaresTo(Midpoint(e, f), |e| - 2))
  {
    hide Scheme.Ratio, Scheme.DampingHalf, CnEquation, Sq, Product;
    var m, k := Midpoint(e, f), |e| - 2;
    StartSquares(e, f, c, k);
    SquareNonNegative(m[k]);
    assert m[k + 1] == 0.0;
    SquareOfZero();
    RatioPositive(c);
    SpreadAtLeastOne(c);
    var p, r, total := 1.0 + 2.0 * c.Ratio() + c.DampingHalf(), c.Ratio(), SquaresTo(m, k);
    assert SquaresTo(m, k + 1) == total && SquaresBefore(m, k) <= total;
    Smaller(r, SquaresBefore(m, k), total);
    Collect(p, r, total);
    Smaller(Spread(c), StencilSquares(m, c, k), Product(Spread(c), total));
    Regroup(Spread(c), total);
  }

  lemma Smaller(c: real, x: real, y: real)
    requires c >= 0.0 && x <= y
    ensures Product(c, x) <= Product(c, y)
  {
  }

  lemma Collect(p: real, r: real, x: real)
    ensures Product(p, x) + Product(r, x) + Product(r, x) == Product(p + 2.0 * r, x)
  {
  }

  lemma Regroup(c: real, x: real)
    ensures Product(c, Product(c, x)) == Product(Sq(c), x)
  {
  }

  // ----- a wall holds every node -----

  /** A node's square is at most its number of intervals from the wall times the squared steps on the way. */
  lemma {:induction false} PathBound(m: seq<real>, i: nat)
    requires i < |m| && m[0] == 0.0
    ensures Sq(m[i]) <= Product(i as real, EdgesTo(m, i))
  {
    hide Sq, Product;
    if i == 0 {
      NoPath();
    } else {
      PathBound(m, i - 1);
      EdgesNonNegative(m, i - 1);
      if i == 1 {
        FirstEdge(m[1]);
        SquareOfZero();
      } else {
        LongerPath(m[i - 1], m[i] - m[i - 1], (i - 1) as real, EdgesTo(m, i - 1));
      }
    }
  }

  lemma NoPath()
    ensures Sq(0.0) == Product(0.0, 0.0)
  {
  }

  lemma FirstEdge(x: real)
    ensures Sq(x) == Product(1.0, 0.0 + Sq(x - 0.0))
  {
  }

  lemma LongerPath(a: real, step: real, k: real, edges: real)
    requires k >= 1.0 && Sq(a) <= Product(k, edges)
    ensures Sq(a + step) <= Product(k + 1.0, edges + Sq(step))
  {
    hide Sq, Product;
    SquareNonNegative(a - k * step);
    ExpandGap(a, step, k);
    var gap := edges + Product(k, Sq(step)) - 2.0 * (a * step);
    ScaleGap(k, edges, Product(k, Sq(step)), a * step);
    FactorSign(k, gap);
    ExpandPath(a, step, k, edges);
  }

  lemma ExpandGap(a: real, step: real, k: real)
    ensures Sq(a - k * step) == Sq(a) - 2.0 * Product(k, a * step) + Product(k, Product(k, Sq(step)))
  {
    var t := k * step;
    assert Sq(a - t) == Sq(a) - 2.0 * (a * t) + t * t;
    assert a * t == Product(k, a * step);
    Squared(k, step, k, step);
    Associate(k, k, step * step);
  }

  lemma Associate(x: real, y: real, z: real)
    ensures (x * y) * z == Product(x, Product(y, z))
  {
  }

  lemma ScaleGap(k: real, x: real, y: real, z: real)
    ensures Product(k, x + y - 2.0 * z) == Product(k, x) + Product(k, y) - 2.0 * Product(k, z)
  {
  }

  lemma ExpandPath(a: real, step: real, k: real, edges: real)
    ensures Sq(a + step) == Sq(a) + 2.0 * (a * step) + Sq(step)
    ensures Product(k + 1.0, edges + Sq(step)) == Product(k, edges) + edges + Product(k, Sq(step)) + Sq(step)
  {
  }

  lemma {:induction false} EdgesGrow(m: seq<real>, i: nat, k: nat)
    requires i <= k < |m|
    ensures EdgesTo(m, i) <= EdgesTo(m, k)
    decreases k
  {
    hide Sq;
    if i == k {
    } else {
      EdgesGrow(m, i, k - 1);
      SquareNonNegative(m[k] - m[k - 1]);
    }
  }

  /** The discrete Poincare inequality with one wall. */
  lemma {:induction false} SquaresBelowEdges(m: seq<real>, k: nat)
    requires k < |m| && m[0] == 0.0
    ensures SquaresTo(m, k) <= Product(k as real, Product(k as real, EdgesTo(m, k)))
  {
    hide Sq, Product;
    if k == 0 {
      assert Product(0.0, Product(0.0, 0.0)) == 0.0 by { ZeroProducts(); }
    } else {
      SquaresBelowEdges(m, k - 1);
      PathBound(m, k);
      EdgesGrow(m, k - 1, k);
      EdgesNonNegative(m, k - 1);
      NextSquares((k - 1) as real, EdgesTo(m, k - 1), EdgesTo(m, k));
    }
  }

  lemma ZeroProducts()
    ensures Product(0.0, Product(0.0, 0.0)) == 0.0
  {
  }

  lemma NextSquares(k: real, x: real, y: real)
    requires k >= 0.0 && 0.0 <= x <= y
    ensures Product(k, Product(k, x)) + Product(k + 1.0, y) <= Product(k + 1.0, Product(k + 1.0, y))
  {
    Smaller(k, x, y);
    Smaller(k, Product(k, x), Product(k, y));
    assert Product(k + 1.0, Product(k + 1.0, y)) == Product(k, Product(k, y)) + Product(k, y) + Product(k + 1.0, y);
    NonNegative(k, y);
  }

  // ----- the contraction -----

  /** The share of the squared error that every step removes, on a grid of n intervals. */
  function Loss(c: Scheme, n: nat): real
    requires c.Valid() && n >= 1
  {
    SpreadPositive(c, n);
    4.0 * (c.Ratio() / Sq(n as real) + c.DampingHalf()) / Sq(Spread(c))
  }

  lemma SpreadPositive(c: Scheme, n: nat)
    requires c.Valid() && n >= 1
    ensures Sq(n as real) >= 1.0 && Sq(Spread(c)) >= 1.0
  {
    SpreadAtLeastOne(c);
    SquareAtLeastOne(n as real);
    SquareAtLeastOne(Spread(c));
  }

  lemma SquareAtLeastOne(x: real)
    requires x >= 1.0
    ensures Sq(x) >= 1.0 && Sq(x) >= x
  {
    assert Product(x - 1.0, x) >= 0.0;
  }

  lemma LossIsShare(c: Scheme, n: nat)
    requires c.Valid() && n >= 1
    ensures 0.0 < Loss(c, n) <= 1.0
  {
    hide Scheme.Ratio, Scheme.DampingHalf, Sq;
    RatioPositive(c);
    SpreadPositive(c, n);
    var r, d, s := c.Ratio(), c.DampingHalf(), Sq(Spread(c));
    PositiveQuotient(r, Sq(n as real));
    SmallerQuotient(r, Sq(n as real));
    var top := 4.0 * (r / Sq(n as real) + d);
    PositiveQuotient(top, s);
    OneAndTwice(4.0 * r + d);
    assert top <= s;
    BelowOne(top, s);
  }

  lemma SmallerQuotient(x: real, y: real)
    requires x > 0.0 && y >= 1.0
    ensures x / y <= x
  {
    var q := x / y;
    assert q * y == x;
    PositiveQuotient(x, y);
    assert q * (y - 1.0) >= 0.0;
  }

  lemma BelowOne(x: real, y: real)
    requires 0.0 < x <= y
    ensures x / y <= 1.0
  {
    var q := x / y;
    assert Product(y, 1.0 - q) == y - x;
    FactorSign(y, 1.0 - q);
  }

  lemma OneAndTwice(x: real)
    ensures Sq(1.0 + x) >= 4.0 * x
  {
    SquareNonNegative(1.0 - x);
    assert Sq(1.0 + x) == Sq(1.0 - x) + 4.0 * x;
  }

  /** The exact loss of an unforced step, in squares: what the step and the damping take at the midpoint. */
  lemma UnforcedChange(e: seq<real>, f: seq<real>, c: Scheme)
    requires c.Valid() && CnStep(e, f, c, 0.0) && ZeroEnds(e)
    ensures var m, k := Midpoint(e, f), |e| - 2;
            SquaresTo(f, k) == SquaresTo(e, k) - 4.0 * Product(c.Ratio(), EdgesTo(m, k + 1))
                               - 4.0 * Product(c.DampingHalf(), SquaresTo(m, k))
  {
    hide Scheme.Ratio, Scheme.DampingHalf, CnEquation, SquaresTo, ValuesTo, Sq, Gain;
    var m, k := Midpoint(e, f), |e| - 2;
    BudgetTo(e, f, c, 0.0, k);
    assert m[k + 1] == 0.0;
    LastEdge(m, EdgesTo(m, k));
    UnforcedGain(c.Ratio(), c.DampingHalf(), 0.0 * c.dt, -EdgesTo(m, k + 1), SquaresTo(m, k), ValuesTo(m, k));
  }

  lemma UnforcedGain(r: real, d: real, f: real, flux: real, squares: real, values: real)
    requires f == 0.0
    ensures Gain(r, d, f, flux, squares, values) == -2.0 * Product(r, -flux) - 2.0 * Product(d, squares)
  {
  }

  lemma LossAlgebra(c: Scheme, n: nat, before: real, after: real, edges: real, squares: real)
    requires c.Valid() && n >= 1 && edges >= 0.0 && squares >= 0.0
    requires after == before - 4.0 * Product(c.Ratio(), edges) - 4.0 * Product(c.DampingHalf(), squares)
    requires squares <= Product(Sq(n as real), edges) && before <= Product(Sq(Spread(c)), squares)
    ensures after <= Product(1.0 - Loss(c, n), before)
  {
    hide Scheme.Ratio, Scheme.DampingHalf, Sq, Product, Spread;
    RatioPositive(c);
    SpreadPositive(c, n);
    var r, d, nn, ss := c.Ratio(), c.DampingHalf(), Sq(n as real), Sq(Spread(c));
    var part := r / nn;
    var top := 4.0 * (part + d);
    PositiveQuotient(r, nn);
    Share(r, nn, edges, squares);
    AddSquaresLeft(part, d, squares);
    ScaleTop(top, ss, before, squares);
    OneMinus(Loss(c, n), before);
    FourTimes(part + d, squares);
  }

  lemma Share(r: real, nn: real, edges: real, squares: real)
    requires r > 0.0 && nn > 0.0 && squares <= Product(nn, edges)
    ensures Product(r / nn, squares) <= Product(r, edges)
  {
    PositiveQuotient(r, nn);
    Smaller(r / nn, squares, Product(nn, edges));
    assert (r / nn) * nn == r;
    assert Product(r / nn, Product(nn, edges)) == Product((r / nn) * nn, edges);
  }

  lemma AddSquaresLeft(x: real, y: real, z: real)
    ensures Product(x + y, z) == Product(x, z) + Product(y, z)
  {
  }

  lemma FourTimes(x: real, y: real)
    ensures Product(4.0 * x, y) == 4.0 * Product(x, y)
  {
  }

  lemma ScaleTop(top: real, ss: real, before: real, squares: real)
    requires top > 0.0 && ss > 0.0 && before <= Product(ss, squares)
    ensures Product(top / ss, before) <= Product(top, squares)
  {
    PositiveQuotient(top, ss);
    Smaller(top / ss, before, Product(ss, squares));
    assert (top / ss) * ss == top;
    assert Product(top / ss, Product(ss, squares)) == Product((top / ss) * ss, squares);
  }

  lemma OneMinus(x: real, y: real)
    ensures Product(1.0 - x, y) == y - Product(x, y)
  {
  }

  /** Every step brings the profile closer to the steady one by a factor below one. */
  lemma StepContracts(v: seq<real>, u: seq<real>, s: seq<real>, c: Scheme)
    requires c.Valid() && |v| == |s| && ZeroEnds(v) && Steady(s, c.dy, c.ha2) && CnStep(v, u, c, 1.0)
    ensures Distance(u, s) <= Product(1.0 - Loss(c, |v| - 1), Distance(v, s))
  {
    SteadyIffFixedPoint(s, c);
    ErrorStep(v, u, s, c);
    var e, f := Difference(v, s), Difference(u, s);
    var m, n := Midpoint(e, f), |v| - 1;
    assert m[0] == 0.0 && m[n] == 0.0;
    hide Scheme.Ratio, Scheme.DampingHalf, CnEquation, Sq, Product, Spread, Loss, Steady;
    UnforcedChange(e, f, c);
    StartBelowMidpoint(e, f, c);
    SquaresBelowEdges(m, n);
    SquareOfZero();
    assert SquaresTo(m, n) == SquaresTo(m, n - 1);
    Regroup(n as real, EdgesTo(m, n));
    EdgesNonNegative(m, n);
    SquaresNonNegative(m, n - 1);
    LossAlgebra(c, n, SquaresTo(e, n - 1), SquaresTo(f, n - 1), EdgesTo(m, n), SquaresTo(m, n - 1));
  }

  function Power(q: real, k: nat): real {
    if k == 0 then 1.0 else Product(q, Power(q, k - 1))
  }

  /** Powers of 1 - x die out at least like 1 / (1 + k x). */
  lemma {:induction false} PowersDieOut(x: real, k: nat)
    requires 0.0 < x <= 1.0
    ensures Power(1.0 - x, k) >= 0.0 && Product(Power(1.0 - x, k), 1.0 + k as real * x) <= 1.0
  {
    if k == 0 {
    } else {
      PowersDieOut(x, k - 1);
      NonNegative(1.0 - x, Power(1.0 - x, k - 1));
      var p, z := Power(1.0 - x, k - 1), 1.0 + (k - 1) as real * x;
      assert 1.0 + k as real * x == z + x;
      DieOutStep(x, p, z);
    }
  }

  lemma DieOutStep(x: real, p: real, z: real)
    requires 0.0 < x <= 1.0 && p >= 0.0 && z >= 1.0 && Product(p, z) <= 1.0
    ensures Product(Product(1.0 - x, p), z + x) <= 1.0
  {
    var w := (1.0 - x) * (z + x);
    assert w == z - x * (z - 1.0) - x * x;
    assert x * (z - 1.0) >= 0.0 && x * x >= 0.0;
    assert w <= z;
    assert Product(Product(1.0 - x, p), z + x) == p * w;
    assert p * w <= p * z;
  }

  /** Along every run the distance to the steady profile falls geometrically. */
  lemma {:induction false} RunContracts(trace: seq<seq<real>>, s: seq<real>, c: Scheme, k: nat)
    requires c.Valid() && IsRun(trace, c) && k < |trace| && |s| == |trace[0]| && Steady(s, c.dy, c.ha2)
    ensures |trace[k]| == |s| >= 3
    ensures Distance(trace[k], s) <= Product(Power(1.0 - Loss(c, |s| - 1), k), Distance(trace[0], s))
  {
    hide Distance, CnStep, Steady, Loss, Product;
    if k == 0 {
      OneTimes(Distance(trace[0], s));
    } else {
      RunContracts(trace, s, c, k - 1);
      StepContracts(trace[k - 1], trace[k], s, c);
      LossIsShare(c, |s| - 1);
      var q := 1.0 - Loss(c, |s| - 1);
      Smaller(q, Distance(trace[k - 1], s), Product(Power(q, k - 1), Distance(trace[0], s)));
      Reassociate(q, Power(q, k - 1), Distance(trace[0], s));
    }
  }

  lemma OneTimes(x: real)
    ensures Product(1.0, x) == x
  {
  }

  lemma Reassociate(x: real, y: real, z: real)
    ensures Product(x, Product(y, z)) == Product(Product(x, y), z)
  {
  }

  /** Every run converges to the steady profile: once k steps times the loss times the tolerance reach the initial
      distance, the distance is within the tolerance and stays there. */
  lemma RunConverges(trace: seq<seq<real>>, s: seq<real>, c: Scheme, k: nat, tolerance: real)
    requires c.Valid() && IsRun(trace, c) && k < |trace| && |s| == |trace[0]| && Steady(s, c.dy, c.ha2)
    requires |s| >= 3 && tolerance > 0.0 && k as real * Loss(c, |s| - 1) * tolerance >= Distance(trace[0], s)
    ensures |trace[k]| == |s| && Distance(trace[k], s) <= tolerance
  {
    hide Distance, CnStep, Steady, Loss;
    RunContracts(trace, s, c, k);
    LossIsShare(c, |s| - 1);
    PowersDieOut(Loss(c, |s| - 1), k);
    WithinTolerance(Power(1.0 - Loss(c, |s| - 1), k), k as real * Loss(c, |s| - 1), Distance(trace[0], s), tolerance);
    hide Product;
  }

  lemma WithinTolerance(p: real, x: real, start: real, tolerance: real)
    requires p >= 0.0 && tolerance > 0.0 && Product(p, 1.0 + x) <= 1.0 && x * tolerance >= start
    ensures Product(p, start) <= tolerance
  {
    Smaller(p, start, x * tolerance);
    assert Product(p, x * tolerance) == (p * x) * tolerance;
    assert p * x <= 1.0;
    Smaller(tolerance, p * x, 1.0);
  }
}
