/** The modal actuator allocator: regularised minimum-norm currents, their optimality, and saturation. */
module Allocation {
  import opened Grid
  import opened RealArith
  import opened Tridiagonal
  import opened Wrappers

  const DET_FLOOR := 0.000000000000001
  const NORM_FLOOR := 0.000000000000001
  const SATURATION_SLACK := 0.000000000001

  datatype Vec3 = Vec3(x: real, y: real, z: real)

  datatype Mat3 = Mat3(r0: Vec3, r1: Vec3, r2: Vec3)

  function Dot3(u: Vec3, v: Vec3): real {
    Product(u.x, v.x) + Product(u.y, v.y) + Product(u.z, v.z)
  }

  function Apply3(m: Mat3, v: Vec3): Vec3 {
    Vec3(Dot3(m.r0, v), Dot3(m.r1, v), Dot3(m.r2, v))
  }

  function Sub3(u: Vec3, v: Vec3): Vec3 {
    Vec3(u.x - v.x, u.y - v.y, u.z - v.z)
  }

  // ----- inverse of a 3x3 matrix -----

  function Minor(a: real, b: real, c: real, d: real): real {
    a * d - b * c
  }

  /** p times the cross product of u and v. */
  function Triple(p: Vec3, u: Vec3, v: Vec3): real {
    Dot3(p, Vec3(Minor(u.y, u.z, v.y, v.z), Minor(u.z, u.x, v.z, v.x), Minor(u.x, u.y, v.x, v.y)))
  }

  function Det3(m: Mat3): real {
    var (a, b, c) := (m.r0.x, m.r0.y, m.r0.z);
    var (d, e, f) := (m.r1.x, m.r1.y, m.r1.z);
    var (g, h, i) := (m.r2.x, m.r2.y, m.r2.z);
    Product(a, Minor(e, f, h, i)) - Product(b, Minor(d, f, g, i)) + Product(c, Minor(d, e, g, h))
  }

  function Adjugate(m: Mat3): Mat3 {
    var (a, b, c) := (m.r0.x, m.r0.y, m.r0.z);
    var (d, e, f) := (m.r1.x, m.r1.y, m.r1.z);
    var (g, h, i) := (m.r2.x, m.r2.y, m.r2.z);
    Mat3(Vec3(Minor(e, f, h, i), Minor(c, b, i, h), Minor(b, c, e, f)),
         Vec3(Minor(f, d, i, g), Minor(a, c, g, i), Minor(c, a, f, d)),
         Vec3(Minor(d, e, g, h), Minor(b, a, h, g), Minor(a, b, d, e)))
  }

  function Divide3(v: Vec3, s: real): Vec3
    requires s != 0.0
  {
    Vec3(v.x / s, v.y / s, v.z / s)
  }

  /** The source's cofactor inverse; `None` stands for its singular-matrix error. */
  function Inverse3(m: Mat3): Option<Mat3> {
    var det := Det3(m);
    if Abs(det) <= DET_FLOOR then None else
      var adj := Adjugate(m);
      Some(Mat3(Divide3(adj.r0, det), Divide3(adj.r1, det), Divide3(adj.r2, det)))
  }

  /** The inverse is refused exactly up to the floor. */
  lemma SingularIff(m: Mat3)
    ensures Inverse3(m).None? <==> -0.000000000000001 <= Det3(m) <= 0.000000000000001
  {
  }

  /** Row times (matrix times vector), from the products of the row with the columns. */
  lemma RowCombination(row: Vec3, m: Mat3, v: Vec3, s: real, t: real, u: real)
    requires Dot3(row, Vec3(m.r0.x, m.r1.x, m.r2.x)) == s
    requires Dot3(row, Vec3(m.r0.y, m.r1.y, m.r2.y)) == t
    requires Dot3(row, Vec3(m.r0.z, m.r1.z, m.r2.z)) == u
    ensures Dot3(row, Apply3(m, v)) == Product(s, v.x) + Product(t, v.y) + Product(u, v.z)
  {
    Regroup(row.x, row.y, row.z, m.r0, m.r1, m.r2, v.x, v.y, v.z);
  }

  lemma Regroup(p: real, q: real, r: real, a: Vec3, b: Vec3, c: Vec3, x: real, y: real, z: real)
    ensures Product(p, Product(a.x, x) + Product(a.y, y) + Product(a.z, z))
            + Product(q, Product(b.x, x) + Product(b.y, y) + Product(b.z, z))
            + Product(r, Product(c.x, x) + Product(c.y, y) + Product(c.z, z))
            == Product(Product(p, a.x) + Product(q, b.x) + Product(r, c.x), x)
               + Product(Product(p, a.y) + Product(q, b.y) + Product(r, c.y), y)
               + Product(Product(p, a.z) + Product(q, b.z) + Product(r, c.z), z)
  {
    hide Product;
    Spread(p, a, x, y, z);
    Spread(q, b, x, y, z);
    Spread(r, c, x, y, z);
    Collect(Product(p, a.x), Product(q, b.x), Product(r, c.x), x);
    Collect(Product(p, a.y), Product(q, b.y), Product(r, c.y), y);
    Collect(Product(p, a.z), Product(q, b.z), Product(r, c.z), z);
  }

  lemma Collect(p: real, q: real, r: real, x: real)
    ensures Product(p + q + r, x) == Product(p, x) + Product(q, x) + Product(r, x)
  {
  }

  lemma Spread(p: real, a: Vec3, x: real, y: real, z: real)
    ensures Product(p, Product(a.x, x) + Product(a.y, y) + Product(a.z, z))
            == Product(Product(p, a.x), x) + Product(Product(p, a.y), y) + Product(Product(p, a.z), z)
  {
    hide Product;
    Distribute(p, Product(a.x, x), Product(a.y, y), Product(a.z, z));
    Associate(p, a.x, x);
    Associate(p, a.y, y);
    Associate(p, a.z, z);
  }

  lemma Distribute(p: real, u: real, v: real, w: real)
    ensures Product(p, u + v + w) == Product(p, u) + Product(p, v) + Product(p, w)
  {
  }

  lemma Associate(p: real, a: real, x: real)
    ensures Product(p, Product(a, x)) == Product(Product(p, a), x)
  {
  }

  lemma TripleRepeatsFirst(u: Vec3, v: Vec3)
    ensures Triple(u, u, v) == 0.0
  {
  }

  lemma TripleRepeatsSecond(u: Vec3, v: Vec3)
    ensures Triple(v, u, v) == 0.0
  {
  }

  lemma TripleCyclic(p: Vec3, u: Vec3, v: Vec3)
    ensures Triple(p, u, v) == Triple(u, v, p)
  {
  }

  lemma DetIsTriple(m: Mat3)
    ensures Det3(m) == Triple(m.r0, m.r1, m.r2)
  {
    assert Minor(m.r1.z, m.r1.x, m.r2.z, m.r2.x) == -Minor(m.r1.x, m.r1.z, m.r2.x, m.r2.z);
    NegatedProduct(m.r0.y, Minor(m.r1.x, m.r1.z, m.r2.x, m.r2.z));
    hide Product, Minor;
  }

  lemma NegatedProduct(x: real, y: real)
    ensures Product(x, -y) == -Product(x, y)
  {
  }

  /** The columns of the adjugate are the cross products of the rows. */
  lemma AdjugateColumns(m: Mat3, p: Vec3)
    ensures var A := Adjugate(m);
            && Dot3(p, Vec3(A.r0.x, A.r1.x, A.r2.x)) == Triple(p, m.r1, m.r2)
            && Dot3(p, Vec3(A.r0.y, A.r1.y, A.r2.y)) == Triple(p, m.r2, m.r0)
            && Dot3(p, Vec3(A.r0.z, A.r1.z, A.r2.z)) == Triple(p, m.r0, m.r1)
  {
    MinorTurned(m.r0.z, m.r0.y, m.r2.z, m.r2.y);
    MinorTurned(m.r0.x, m.r0.z, m.r2.x, m.r2.z);
    MinorTurned(m.r0.y, m.r0.x, m.r2.y, m.r2.x);
    hide Product, Minor;
  }

  lemma MinorTurned(a: real, b: real, c: real, d: real)
    ensures Minor(a, b, c, d) == Minor(d, c, b, a)
  {
  }

  /** Row by row, a matrix times its adjugate is the determinant times the identity. */
  lemma AdjugateRows(m: Mat3, v: Vec3)
    ensures var w, det := Apply3(Adjugate(m), v), Det3(m);
            && Dot3(m.r0, w) == Product(det, v.x) && Dot3(m.r1, w) == Product(det, v.y)
            && Dot3(m.r2, w) == Product(det, v.z)
  {
    var det, adj := Det3(m), Adjugate(m);
    DetIsTriple(m);
    AdjugateColumns(m, m.r0);
    AdjugateColumns(m, m.r1);
    AdjugateColumns(m, m.r2);
    TripleCyclic(m.r0, m.r1, m.r2);
    TripleCyclic(m.r1, m.r2, m.r0);
    TripleRepeatsFirst(m.r0, m.r1);
    TripleRepeatsFirst(m.r1, m.r2);
    TripleRepeatsFirst(m.r2, m.r0);
    TripleRepeatsSecond(m.r2, m.r0);
    TripleRepeatsSecond(m.r0, m.r1);
    TripleRepeatsSecond(m.r1, m.r2);
    ProductZero(v.x);
    ProductZero(v.y);
    ProductZero(v.z);
    hide Product, Minor, Apply3, Adjugate, Det3, Triple, Dot3;
    RowCombination(m.r0, adj, v, det, 0.0, 0.0);
    RowCombination(m.r1, adj, v, 0.0, det, 0.0);
    RowCombination(m.r2, adj, v, 0.0, 0.0, det);
  }

  lemma ProductZero(x: real)
    ensures Product(0.0, x) == 0.0
  {
  }

  /** Dividing a row of the matrix by s divides its product with a vector. */
  lemma RowQuotient(row: Vec3, s: real, v: Vec3)
    requires s != 0.0
    ensures Product(Dot3(Divide3(row, s), v), s) == Dot3(row, v)
  {
    var a, b, c := row.x / s, row.y / s, row.z / s;
    QuotientTerm(row.x, s, v.x, a);
    QuotientTerm(row.y, s, v.y, b);
    QuotientTerm(row.z, s, v.z, c);
  }

  lemma QuotientTerm(x: real, s: real, v: real, a: real)
    requires s != 0.0 && a == x / s
    ensures Product(Product(a, v), s) == Product(x, v)
  {
    assert a * s == x;
    assert Product(a * s, v) == Product(x, v);
    assert Product(a * s, v) == Product(Product(a, v), s);
  }

  lemma ScaledDot(m: Vec3, y: Vec3, w: Vec3, s: real)
    requires Product(y.x, s) == w.x && Product(y.y, s) == w.y && Product(y.z, s) == w.z
    ensures Product(Dot3(m, y), s) == Dot3(m, w)
  {
    assert Product(m.x, Product(y.x, s)) == Product(m.x, w.x);
    assert Product(m.y, Product(y.y, s)) == Product(m.y, w.y);
    assert Product(m.z, Product(y.z, s)) == Product(m.z, w.z);
    assert Product(Dot3(m, y), s) ==
           Product(m.x, Product(y.x, s)) + Product(m.y, Product(y.y, s)) + Product(m.z, Product(y.z, s));
  }

  /** The inverse really inverts: applied to t it gives a solution of m y = t. */
  lemma Inverse3Solves(m: Mat3, t: Vec3)
    requires Inverse3(m).Some?
    ensures Apply3(m, Apply3(Inverse3(m).value, t)) == t
  {
    hide Det3, Adjugate, Dot3, Divide3;
    var det, adj := Det3(m), Adjugate(m);
    assert det != 0.0;
    var y, w := Apply3(Inverse3(m).value, t), Apply3(adj, t);
    RowQuotient(adj.r0, det, t);
    RowQuotient(adj.r1, det, t);
    RowQuotient(adj.r2, det, t);
    AdjugateRows(m, t);
    ScaledDot(m.r0, y, w, det);
    ScaledDot(m.r1, y, w, det);
    ScaledDot(m.r2, y, w, det);
    CancelFactor(Dot3(m.r0, y), t.x, det);
    CancelFactor(Dot3(m.r1, y), t.y, det);
    CancelFactor(Dot3(m.r2, y), t.z, det);
  }

  lemma CancelFactor(u: real, t: real, s: real)
    requires s != 0.0 && Product(u, s) == Product(s, t)
    ensures u == t
  {
    ZeroProduct(s, u - t);
  }

  // ----- vectors of any length -----

  function Products(u: seq<real>, v: seq<real>): (r: seq<real>)
    requires |u| == |v|
    ensures |r| == |u|
  {
    seq(|u|, (j: nat) requires j < |u| => Product(u[j], v[j]))
  }

  function Inner(u: seq<real>, v: seq<real>): real
    requires |u| == |v|
  {
    Sum(Products(u, v))
  }

  function Plus(u: seq<real>, v: seq<real>): (r: seq<real>)
    requires |u| == |v|
    ensures |r| == |u|
  {
    seq(|u|, (j: nat) requires j < |u| => u[j] + v[j])
  }

  lemma InnerSymmetric(u: seq<real>, v: seq<real>)
    requires |u| == |v|
    ensures Inner(u, v) == Inner(v, u)
  {
    assert Products(u, v) == Products(v, u);
  }

  lemma InnerPlus(u: seq<real>, v: seq<real>, w: seq<real>)
    requires |u| == |v| == |w|
    ensures Inner(u, Plus(v, w)) == Inner(u, v) + Inner(u, w)
  {
    var h, f, g := Products(u, Plus(v, w)), Products(u, v), Products(u, w);
    forall j | 0 <= j < |h| ensures h[j] == Lin(1.0, f[j], 1.0, g[j]) {
      Collect(v[j], w[j], 0.0, u[j]);
      assert Product(u[j], v[j] + w[j]) == Product(u[j], v[j]) + Product(u[j], w[j]);
    }
    SumCombine(h, 1.0, f, 1.0, g);
  }

  lemma InnerScaled(u: seq<real>, v: seq<real>, w: seq<real>, s: real)
    requires |u| == |v| == |w| && forall j :: 0 <= j < |v| ==> w[j] == Product(v[j], s)
    ensures Inner(u, w) == Product(Inner(u, v), s)
  {
    var h, f := Products(u, w), Products(u, v);
    forall j | 0 <= j < |h| ensures h[j] == Lin(s, f[j], 0.0, f[j]) {
      ScaleTerm(u[j], v[j], w[j], s);
    }
    SumCombine(h, s, f, 0.0, f);
  }

  lemma ScaleTerm(u: real, v: real, w: real, s: real)
    requires w == Product(v, s)
    ensures Product(u, w) == Lin(s, Product(u, v), 0.0, Product(u, v))
  {
    assert Product(u, w) == Product(u, Product(v, s)) == s * Product(u, v);
  }

  lemma InnerSquareNonNegative(u: seq<real>)
    ensures Inner(u, u) >= 0.0
    ensures Inner(u, u) == 0.0 ==> forall j :: 0 <= j < |u| ==> u[j] == 0.0
  {
    var s := Products(u, u);
    forall j | 0 <= j < |s| ensures s[j] >= 0.0 && (s[j] == 0.0 ==> u[j] == 0.0) {
      SquareNonNegative(u[j]);
    }
    SumNonNegative(s);
  }

  // ----- the allocation problem -----

  /** The 3 by N transfer matrix. */
  datatype Transfer = Transfer(r0: seq<real>, r1: seq<real>, r2: seq<real>) {

    predicate Wide(n: nat) {
      |r0| == n && |r1| == n && |r2| == n
    }
  }

  function Realize(m: Transfer, v: seq<real>): Vec3
    requires m.Wide(|v|)
  {
    Vec3(Inner(m.r0, v), Inner(m.r1, v), Inner(m.r2, v))
  }

  function Gram(m: Transfer): Mat3
    requires m.Wide(|m.r0|)
  {
    Mat3(Vec3(Inner(m.r0, m.r0), Inner(m.r0, m.r1), Inner(m.r0, m.r2)),
         Vec3(Inner(m.r1, m.r0), Inner(m.r1, m.r1), Inner(m.r1, m.r2)),
         Vec3(Inner(m.r2, m.r0), Inner(m.r2, m.r1), Inner(m.r2, m.r2)))
  }

  function Regularize(g: Mat3, eps: real): Mat3 {
    Mat3(g.r0.(x := g.r0.x + eps), g.r1.(y := g.r1.y + eps), g.r2.(z := g.r2.z + eps))
  }

  /** The transposed matrix applied to y. */
  function Pull(m: Transfer, y: Vec3): (r: seq<real>)
    requires m.Wide(|m.r0|)
    ensures |r| == |m.r0|
  {
    seq(|m.r0|, (j: nat) requires j < |m.r0| => Product(m.r0[j], y.x) + Product(m.r1[j], y.y) + Product(m.r2[j], y.z))
  }

  function Scaled(v: seq<real>, s: real): (r: seq<real>)
    ensures |r| == |v|
  {
    seq(|v|, (j: nat) requires j < |v| => Product(v[j], s))
  }

  /** Moving the transpose across the inner product. */
  lemma PullAdjoint(m: Transfer, y: Vec3, u: seq<real>)
    requires m.Wide(|u|)
    ensures Inner(u, Pull(m, y)) == Dot3(Realize(m, u), y)
  {
    var a, b, c := Scaled(m.r0, y.x), Scaled(m.r1, y.y), Scaled(m.r2, y.z);
    assert Pull(m, y) == Plus(Plus(a, b), c);
    InnerPlus(u, Plus(a, b), c);
    InnerPlus(u, a, b);
    InnerScaled(u, m.r0, a, y.x);
    InnerScaled(u, m.r1, b, y.y);
    InnerScaled(u, m.r2, c, y.z);
    InnerSymmetric(u, m.r0);
    InnerSymmetric(u, m.r1);
    InnerSymmetric(u, m.r2);
  }

  /** Misfit to the target plus the weighted squared size of the currents. */
  function Objective(m: Transfer, target: Vec3, eps: real, v: seq<real>): real
    requires m.Wide(|v|)
  {
    var e := Sub3(Realize(m, v), target);
    Dot3(e, e) + Product(eps, Inner(v, v))
  }

  /** y solves the regularised normal equations. */
  predicate Normal(m: Transfer, target: Vec3, eps: real, y: Vec3)
    requires m.Wide(|m.r0|)
  {
    Apply3(Regularize(Gram(m), eps), y) == target
  }

  /** The misfit of the pulled-back solution is proportional to y. */
  lemma NormalResidual(m: Transfer, target: Vec3, eps: real, y: Vec3)
    requires m.Wide(|m.r0|) && Normal(m, target, eps, y)
    ensures var r := Realize(m, Pull(m, y));
            && r.x - target.x == -Product(eps, y.x)
            && r.y - target.y == -Product(eps, y.y)
            && r.z - target.z == -Product(eps, y.z)
  {
    PullAdjoint(m, y, m.r0);
    PullAdjoint(m, y, m.r1);
    PullAdjoint(m, y, m.r2);
    InnerSymmetric(m.r0, m.r1);
    InnerSymmetric(m.r0, m.r2);
    InnerSymmetric(m.r1, m.r2);
    hide Inner;
    var g := Gram(m);
    DiagonalShift(g.r0.x, eps, y.x);
    DiagonalShift(g.r1.y, eps, y.y);
    DiagonalShift(g.r2.z, eps, y.z);
    hide Product;
  }

  lemma DiagonalShift(g: real, eps: real, y: real)
    ensures Product(g + eps, y) == Product(g, y) + Product(eps, y)
  {
  }

  /** Any deviation from the pulled-back solution costs exactly its realised effect plus its weighted size. */
  lemma DeviationCost(m: Transfer, target: Vec3, eps: real, y: Vec3, d: seq<real>)
    requires m.Wide(|d|) && Normal(m, target, eps, y)
    ensures Objective(m, target, eps, Plus(Pull(m, y), d)) ==
            Objective(m, target, eps, Pull(m, y)) + Dot3(Realize(m, d), Realize(m, d)) + Product(eps, Inner(d, d))
  {
    var x, a := Pull(m, y), Realize(m, d);
    NormalResidual(m, target, eps, y);
    PullAdjoint(m, y, d);
    InnerPlus(m.r0, x, d);
    InnerPlus(m.r1, x, d);
    InnerPlus(m.r2, x, d);
    InnerPlus(Plus(x, d), x, d);
    InnerSymmetric(Plus(x, d), x);
    InnerSymmetric(Plus(x, d), d);
    InnerPlus(x, x, d);
    InnerPlus(d, x, d);
    InnerSymmetric(x, d);
    hide Inner;
    var r := Realize(m, x);
    CrossTerms(r.x - target.x, r.y - target.y, r.z - target.z, a, y, eps, Inner(x, x), Inner(d, x), Inner(d, d));
    var e := Sub3(Realize(m, Plus(x, d)), target);
    assert e.x == (r.x - target.x) + a.x && e.y == (r.y - target.y) + a.y && e.z == (r.z - target.z) + a.z;
    hide Product, Realize;
  }

  lemma CrossTerms(p: real, q: real, r: real, a: Vec3, y: Vec3, eps: real, xx: real, xd: real, dd: real)
    requires p == -Product(eps, y.x) && q == -Product(eps, y.y) && r == -Product(eps, y.z) && xd == Dot3(a, y)
    ensures Sq(p + a.x) + Sq(q + a.y) + Sq(r + a.z) + Product(eps, xx + xd + (xd + dd)) ==
            Sq(p) + Sq(q) + Sq(r) + Product(eps, xx) + Dot3(a, a) + Product(eps, dd)
  {
    CrossTerm(p, a.x, y.x, eps);
    CrossTerm(q, a.y, y.y, eps);
    CrossTerm(r, a.z, y.z, eps);
    assert Product(eps, xx + xd + (xd + dd)) == Product(eps, xx) + 2.0 * Product(eps, xd) + Product(eps, dd);
    assert Product(eps, xd) == Product(eps, Dot3(a, y));
    assert Product(eps, Dot3(a, y)) ==
           Product(eps, Product(a.x, y.x)) + Product(eps, Product(a.y, y.y)) + Product(eps, Product(a.z, y.z));
  }

  lemma CrossTerm(p: real, a: real, y: real, eps: real)
    requires p == -Product(eps, y)
    ensures Sq(p + a) == Sq(p) + Product(a, a) - 2.0 * Product(eps, Product(a, y))
  {
    assert Sq(p + a) == Sq(p) + Product(a, a) + 2.0 * Product(p, a);
    assert Product(p, a) == Product(-Product(eps, y), a);
  }

  function Minus(u: seq<real>, v: seq<real>): (r: seq<real>)
    requires |u| == |v|
    ensures |r| == |u|
  {
    seq(|u|, (j: nat) requires j < |u| => u[j] - v[j])
  }

  lemma MinusRestores(u: seq<real>, v: seq<real>)
    requires |u| == |v|
    ensures Plus(v, Minus(u, v)) == u
    ensures (forall j :: 0 <= j < |u| ==> Minus(u, v)[j] == 0.0) ==> u == v
  {
    if forall j :: 0 <= j < |u| ==> Minus(u, v)[j] == 0.0 {
      forall j | 0 <= j < |u| ensures u[j] == v[j] {
        assert Minus(u, v)[j] == 0.0;
      }
    }
  }

  /** Among all current vectors the pulled-back solution has the least objective, and is the only one for eps > 0. */
  lemma PulledIsOptimal(m: Transfer, target: Vec3, eps: real, y: Vec3, v: seq<real>)
    requires m.Wide(|v|) && eps >= 0.0 && Normal(m, target, eps, y)
    ensures Objective(m, target, eps, Pull(m, y)) <= Objective(m, target, eps, v)
    ensures eps > 0.0 && Objective(m, target, eps, Pull(m, y)) == Objective(m, target, eps, v) ==> v == Pull(m, y)
  {
    var d := Minus(v, Pull(m, y));
    MinusRestores(v, Pull(m, y));
    DeviationCost(m, target, eps, y, d);
    InnerSquareNonNegative(d);
    var a := Realize(m, d);
    SquareNonNegative(a.x);
    SquareNonNegative(a.y);
    SquareNonNegative(a.z);
    WeightedSquare(eps, Inner(d, d));
    hide Objective, Normal, Inner, Realize, Product;
  }

  lemma WeightedSquare(eps: real, n: real)
    requires eps >= 0.0 && n >= 0.0
    ensures Product(eps, n) >= 0.0 && (eps > 0.0 && Product(eps, n) == 0.0 ==> n == 0.0)
  {
    if eps > 0.0 && n > 0.0 {
      ProductOfPositives(eps, n);
    }
  }

  /** Without regularisation the target is met exactly, by the shortest vector that meets it. */
  lemma PulledIsLeastNorm(m: Transfer, target: Vec3, y: Vec3, v: seq<real>)
    requires m.Wide(|v|) && Normal(m, target, 0.0, y)
    ensures Realize(m, Pull(m, y)) == target
    ensures Realize(m, v) == target ==>
              Inner(Pull(m, y), Pull(m, y)) <= Inner(v, v)
              && (Inner(Pull(m, y), Pull(m, y)) == Inner(v, v) ==> v == Pull(m, y))
  {
    var x := Pull(m, y);
    NormalResidual(m, target, 0.0, y);
    ProductZero(y.x);
    ProductZero(y.y);
    ProductZero(y.z);
    if Realize(m, v) == target {
      var d := Minus(v, x);
      MinusRestores(v, x);
      DeviationCost(m, target, 0.0, y, d);
      InnerSquareNonNegative(d);
      LengthOfSum(m, x, y, d);
    }
  }

  /** A deviation with no realised effect is orthogonal to the pulled-back solution. */
  lemma LengthOfSum(m: Transfer, x: seq<real>, y: Vec3, d: seq<real>)
    requires m.Wide(|d|) && x == Pull(m, y) && Realize(m, Plus(x, d)) == Realize(m, x)
    ensures Inner(Plus(x, d), Plus(x, d)) == Inner(x, x) + Inner(d, d)
  {
    InnerPlus(m.r0, x, d);
    InnerPlus(m.r1, x, d);
    InnerPlus(m.r2, x, d);
    PullAdjoint(m, y, d);
    ProductZero(y.x);
    ProductZero(y.y);
    ProductZero(y.z);
    InnerPlus(Plus(x, d), x, d);
    InnerSymmetric(Plus(x, d), x);
    InnerSymmetric(Plus(x, d), d);
    InnerPlus(x, x, d);
    InnerPlus(d, x, d);
    InnerSymmetric(x, d);
    hide Inner, Product, Pull, Plus;
  }

  // ----- the allocator -----

  datatype Allocated = Allocated(currents: seq<real>, realized: Vec3, residual: real, saturated: nat)

  datatype AllocateError = BadLimits | BadMatrix | ShortRow | SingularMatrix

  function Clip(v: real, limit: real): real {
    var low := if v < limit then v else limit;
    if low > -limit then low else -limit
  }

  function Clipped(v: seq<real>, limit: real): (r: seq<real>)
    ensures |r| == |v|
  {
    seq(|v|, (j: nat) requires j < |v| => Clip(v[j], limit))
  }

  function Saturated(v: seq<real>, limit: real): nat {
    if v == [] then 0 else
      Saturated(v[..|v| - 1], limit) + if Abs(v[|v| - 1]) >= limit - SATURATION_SLACK then 1 else 0
  }

  /** The rows as they are indexed: the first row decides the number of columns. */
  function Columns(rows: seq<seq<real>>): Option<Transfer>
    requires |rows| == 3
  {
    var n := |rows[0]|;
    if |rows[1]| < n || |rows[2]| < n then None else Some(Transfer(rows[0], rows[1][..n], rows[2][..n]))
  }

  predicate MatrixOk(rows: seq<seq<real>>) {
    |rows| == 3 && |rows[0]| >= 4 && |rows[1]| >= 4 && |rows[2]| >= 4
  }

  function Zeros(n: nat): (r: seq<real>)
    ensures |r| == n
  {
    seq(n, (j: nat) requires j < n => 0.0)
  }

  function Norm(sqrt: real -> real, v: Vec3): real {
    sqrt(Dot3(v, v))
  }

  /** `None` when the regularised Gram matrix is numerically singular. */
  function Unconstrained(m: Transfer, target: Vec3, eps: real): Option<seq<real>>
    requires m.Wide(|m.r0|)
  {
    var inverse := Inverse3(Regularize(Gram(m), eps));
    if inverse.None? then None else Some(Pull(m, Apply3(inverse.value, target)))
  }

  function AllocateModalCommand(sqrt: real -> real, target: Vec3, rows: seq<seq<real>>, limit: real, eps: real):
      Result<Allocated, AllocateError>
  {
    var norm := Norm(sqrt, target);
    if limit <= 0.0 || eps < 0.0 then Failure(BadLimits)
    else if !MatrixOk(rows) then Failure(BadMatrix)
    else if norm <= NORM_FLOOR then Success(Allocated(Zeros(|rows[0]|), Vec3(0.0, 0.0, 0.0), 0.0, 0))
    else if Columns(rows).None? then Failure(ShortRow)
    else
      var m := Columns(rows).value;
      var unconstrained := Unconstrained(m, target, eps);
      if unconstrained.None? then Failure(SingularMatrix) else
        var currents := Clipped(unconstrained.value, limit);
        var realized := Realize(m, currents);
        Success(Allocated(currents, realized, Norm(sqrt, Sub3(realized, target)) / norm, Saturated(currents, limit)))
  }

  /** What the allocator accepts: a positive limit, no negative regularisation, three rows of four or more columns and,
      for a target beyond the floor, rows that cover the first one and a Gram matrix that can be inverted. */
  lemma AllocationAcceptsIff(sqrt: real -> real, target: Vec3, rows: seq<seq<real>>, limit: real, eps: real)
    ensures AllocateModalCommand(sqrt, target, rows, limit, eps).Success? <==>
            && limit > 0.0 && eps >= 0.0 && |rows| == 3 && (forall i :: 0 <= i < 3 ==> |rows[i]| >= 4)
            && (Norm(sqrt, target) > 0.000000000000001 ==> Invertible(rows, eps))
    ensures AllocateModalCommand(sqrt, target, rows, limit, eps) == Failure(BadLimits) <==> limit <= 0.0 || eps < 0.0
    ensures AllocateModalCommand(sqrt, target, rows, limit, eps).Success? && Norm(sqrt, target) <= 0.000000000000001 ==>
              AllocateModalCommand(sqrt, target, rows, limit, eps).value ==
              Allocated(seq(|rows[0]|, _ => 0.0), Vec3(0.0, 0.0, 0.0), 0.0, 0)
    ensures |rows| == 3 && Invertible(rows, eps) ==>
              Columns(rows) == Some(Transfer(rows[0], rows[1][..|rows[0]|], rows[2][..|rows[0]|]))
  {
    hide Norm, Realize, Saturated, Clipped, Gram, Pull, Det3, Adjugate, Divide3, Regularize;
    if MatrixOk(rows) && Columns(rows).Some? {
      SingularIff(Regularize(Gram(Columns(rows).value), eps));
    }
    assert |rows| == 3 ==> Zeros(|rows[0]|) == seq(|rows[0]|, _ => 0.0);
  }

  predicate Invertible(rows: seq<seq<real>>, eps: real)
    requires |rows| == 3
  {
    && |rows[1]| >= |rows[0]| && |rows[2]| >= |rows[0]|
    && var det := Det3(Regularize(Gram(Transfer(rows[0], rows[1][..|rows[0]|], rows[2][..|rows[0]|])), eps));
       !(-0.000000000000001 <= det <= 0.000000000000001)
  }

  lemma UnconstrainedIsNormal(m: Transfer, target: Vec3, eps: real) returns (y: Vec3)
    requires m.Wide(|m.r0|) && Unconstrained(m, target, eps).Some?
    ensures Normal(m, target, eps, y) && Unconstrained(m, target, eps).value == Pull(m, y)
  {
    y := Apply3(Inverse3(Regularize(Gram(m), eps)).value, target);
    hide Gram, Inverse3, Apply3, Pull;
    Inverse3Solves(Regularize(Gram(m), eps), target);
  }

  lemma {:induction false} UnsaturatedIsUnclipped(v: seq<real>, limit: real)
    requires limit > 0.0 && Saturated(Clipped(v, limit), limit) == 0
    ensures Clipped(v, limit) == v
  {
    if v == [] {
    } else {
      var n := |v| - 1;
      assert Clipped(v, limit)[..n] == Clipped(v[..n], limit);
      UnsaturatedIsUnclipped(v[..n], limit);
      assert Clip(v[n], limit) == v[n];
      assert v == v[..n] + [v[n]];
    }
  }

  /** What a successful allocation of a non-negligible target consists of. */
  lemma AllocatedParts(sqrt: real -> real, target: Vec3, rows: seq<seq<real>>, limit: real, eps: real)
    requires Norm(sqrt, target) > NORM_FLOOR
    requires AllocateModalCommand(sqrt, target, rows, limit, eps).Success?
    ensures limit > 0.0 && eps >= 0.0 && MatrixOk(rows) && Columns(rows).Some?
    ensures var a, m := AllocateModalCommand(sqrt, target, rows, limit, eps).value, Columns(rows).value;
            && Unconstrained(m, target, eps).Some?
            && a.currents == Clipped(Unconstrained(m, target, eps).value, limit)
            && a.saturated == Saturated(a.currents, limit)
            && m.Wide(|a.currents|) && a.realized == Realize(m, a.currents)
            && a.residual == Norm(sqrt, Sub3(a.realized, target)) / Norm(sqrt, target)
  {
    hide Norm, Realize, Saturated, Clipped, Inverse3, Gram, Pull;
  }

  /** The commanded currents never exceed the limit. */
  lemma CurrentsWithinLimit(sqrt: real -> real, target: Vec3, rows: seq<seq<real>>, limit: real,
                            eps: real, j: nat)
    requires var a := AllocateModalCommand(sqrt, target, rows, limit, eps); a.Success? && j < |a.value.currents|
    ensures Abs(AllocateModalCommand(sqrt, target, rows, limit, eps).value.currents[j]) <= limit
  {
    hide Unconstrained, Norm, Realize;
  }

  /** The clipped value is the point of the interval nearest to v, keeps its sign, and has reached the limit, up to the
      slack, exactly when v has. */
  lemma ClipIsNearest(v: real, limit: real, u: real)
    requires limit > 0.0 && -limit <= u <= limit
    ensures var c := Clip(v, limit);
            && -limit <= c <= limit && Abs(c - v) <= Abs(u - v)
            && (v >= 0.0 ==> c >= 0.0) && (v <= 0.0 ==> c <= 0.0)
            && (Abs(c) >= limit - 0.000000000001 <==> Abs(v) >= limit - 0.000000000001)
  {
  }

  lemma {:induction false} SaturatedCounts(v: seq<real>, limit: real)
    ensures Saturated(v, limit) == |set j | 0 <= j < |v| && Abs(v[j]) >= limit - 0.000000000001|
    decreases |v|
  {
    var hit := set j | 0 <= j < |v| && Abs(v[j]) >= limit - 0.000000000001;
    if v == [] {
      assert hit == {};
    } else {
      var n := |v| - 1;
      SaturatedCounts(v[..n], limit);
      var before := set j | 0 <= j < |v[..n]| && Abs(v[..n][j]) >= limit - 0.000000000001;
      assert hit == before + if Abs(v[n]) >= limit - 0.000000000001 then {n} else {};
    }
  }

  function Gap(x: real, y: real): real {
    Abs(x - y)
  }

  /** No point of the interval is nearer to v than c. */
  ghost predicate IsNearest(c: real, v: real, limit: real) {
    -limit <= c <= limit && forall u :: -limit <= u <= limit ==> Gap(c, v) <= Gap(u, v)
  }

  /** Each command is the value within the limit nearest to the unconstrained one, with its sign; the actuators reported
      saturated are those whose unconstrained value reaches the limit. */
  lemma CommandsAreNearest(sqrt: real -> real, target: Vec3, rows: seq<seq<real>>, limit: real, eps: real)
    requires Norm(sqrt, target) > NORM_FLOOR
    requires AllocateModalCommand(sqrt, target, rows, limit, eps).Success?
    ensures Columns(rows).Some? && Unconstrained(Columns(rows).value, target, eps).Some?
    ensures var a, v := AllocateModalCommand(sqrt, target, rows, limit, eps).value,
                        Unconstrained(Columns(rows).value, target, eps).value;
            && |a.currents| == |v|
            && (forall j: nat :: j < |v| ==>
                  && IsNearest(a.currents[j], v[j], limit)
                  && (v[j] >= 0.0 ==> a.currents[j] >= 0.0) && (v[j] <= 0.0 ==> a.currents[j] <= 0.0))
            && a.saturated == |set j | 0 <= j < |v| && Abs(v[j]) >= limit - 0.000000000001|
  {
    hide Norm, Unconstrained, AllocateModalCommand, Columns, Clip;
    AllocatedParts(sqrt, target, rows, limit, eps);
    var a := AllocateModalCommand(sqrt, target, rows, limit, eps).value;
    var v := Unconstrained(Columns(rows).value, target, eps).value;
    forall j: nat | j < |v|
      ensures IsNearest(a.currents[j], v[j], limit)
      ensures (v[j] >= 0.0 ==> a.currents[j] >= 0.0) && (v[j] <= 0.0 ==> a.currents[j] <= 0.0)
      ensures Abs(a.currents[j]) >= limit - 0.000000000001 <==> Abs(v[j]) >= limit - 0.000000000001
    {
      ClipIsNearest(v[j], limit, 0.0);
      forall u | -limit <= u <= limit ensures Gap(a.currents[j], v[j]) <= Gap(u, v[j]) {
        ClipIsNearest(v[j], limit, u);
      }
    }
    SaturatedCounts(a.currents, limit);
    assert (set j | 0 <= j < |v| && Abs(v[j]) >= limit - 0.000000000001) ==
           (set j | 0 <= j < |v| && Abs(a.currents[j]) >= limit - 0.000000000001);
  }

  /** When no actuator saturates, the currents minimise misfit plus weighted size over all current vectors; with
      regularisation they are the only minimiser, and without it they meet the target with the least norm. */
  lemma UnsaturatedIsOptimal(sqrt: real -> real, target: Vec3, rows: seq<seq<real>>, limit: real,
                             eps: real, v: seq<real>)
    requires Norm(sqrt, target) > NORM_FLOOR
    requires var a := AllocateModalCommand(sqrt, target, rows, limit, eps); a.Success? && a.value.saturated == 0
    requires MatrixOk(rows) && Columns(rows).Some? && |v| == |rows[0]|
    ensures var x, m := AllocateModalCommand(sqrt, target, rows, limit, eps).value.currents, Columns(rows).value;
            && |x| == |v|
            && Objective(m, target, eps, x) <= Objective(m, target, eps, v)
            && (eps > 0.0 && Objective(m, target, eps, x) == Objective(m, target, eps, v) ==> v == x)
            && (eps == 0.0 ==> Realize(m, x) == target)
            && (eps == 0.0 && Realize(m, v) == target ==> Inner(x, x) <= Inner(v, v))
  {
    hide Norm, Realize, Objective, Inner, Pull, Normal, Saturated, Inverse3, Apply3, Gram, Unconstrained;
    AllocatedParts(sqrt, target, rows, limit, eps);
    var m := Columns(rows).value;
    UnsaturatedIsUnclipped(Unconstrained(m, target, eps).value, limit);
    var y := UnconstrainedIsNormal(m, target, eps);
    PulledIsOptimal(m, target, eps, y, v);
    if eps == 0.0 {
      PulledIsLeastNorm(m, target, y, v);
    }
  }

  /** The reported residual is the relative distance of the realised command from the target. */
  lemma ResidualIsRelativeMisfit(sqrt: real -> real, target: Vec3, rows: seq<seq<real>>, limit: real,
                                 eps: real)
    requires IsRoot(sqrt) && Norm(sqrt, target) > NORM_FLOOR
    requires AllocateModalCommand(sqrt, target, rows, limit, eps).Success?
    ensures var a, n := AllocateModalCommand(sqrt, target, rows, limit, eps).value, Norm(sqrt, target);
            var e := Sub3(a.realized, target);
            && a.residual >= 0.0 && Sq(n) == Dot3(target, target) && Sq(Product(a.residual, n)) == Dot3(e, e)
            && (a.residual == 0.0 <==> a.realized == target)
  {
    hide AllocateModalCommand, Realize, Product;
    AllocatedParts(sqrt, target, rows, limit, eps);
    var a := AllocateModalCommand(sqrt, target, rows, limit, eps).value;
    DotNonNegative(target);
    RelativeMisfit(sqrt, Sub3(a.realized, target), Norm(sqrt, target), a.residual);
  }

  lemma RelativeMisfit(sqrt: real -> real, e: Vec3, n: real, residual: real)
    requires IsRoot(sqrt) && n > 0.0 && residual == Norm(sqrt, e) / n
    ensures residual >= 0.0 && Sq(Product(residual, n)) == Dot3(e, e)
    ensures residual == 0.0 <==> e == Vec3(0.0, 0.0, 0.0)
  {
    hide Product, Dot3;
    DotNonNegative(e);
    var r := Norm(sqrt, e);
    assert Sq(r) == Dot3(e, e) && r >= 0.0;
    QuotientSign(r, n);
    SquareNonNegative(r);
    ProductZero(r);
  }

  lemma QuotientSign(r: real, n: real)
    requires r >= 0.0 && n > 0.0
    ensures r / n >= 0.0 && Product(r / n, n) == r && (r / n == 0.0 <==> r == 0.0)
  {
    if r > 0.0 {
      PositiveQuotient(r, n);
    }
  }

  lemma DotNonNegative(v: Vec3)
    ensures Dot3(v, v) >= 0.0 && (Dot3(v, v) == 0.0 <==> v == Vec3(0.0, 0.0, 0.0))
  {
    SquareNonNegative(v.x);
    SquareNonNegative(v.y);
    SquareNonNegative(v.z);
    ProductZero(0.0);
    hide Product;
  }

  // ----- the branch for a negligible target -----

  /** The zero currents returned for a negligible target are a minimiser. */
  ghost predicate ZeroIsOptimal(m: Transfer, target: Vec3, eps: real, n: nat)
    requires m.Wide(n)
  {
    forall v: seq<real> :: |v| == n ==> Objective(m, target, eps, Zeros(n)) <= Objective(m, target, eps, v)
  }

  lemma InnerZeros(u: seq<real>)
    ensures Inner(u, Zeros(|u|)) == 0.0
  {
    forall j | 0 <= j < |u| ensures Zeros(|u|)[j] == Product(u[j], 0.0) {
      ProductZero(u[j]);
    }
    InnerScaled(u, u, Zeros(|u|), 0.0);
    ProductZero(Inner(u, u));
  }

  lemma ObjectiveExpands(m: Transfer, target: Vec3, eps: real, v: seq<real>)
    requires m.Wide(|v|)
    ensures var a := Realize(m, v);
            Objective(m, target, eps, v) ==
            Dot3(target, target) + Dot3(a, a) - 2.0 * Dot3(a, target) + Product(eps, Inner(v, v))
  {
    hide Inner;
    var a := Realize(m, v);
    DifferenceSquare(a.x, target.x);
    DifferenceSquare(a.y, target.y);
    DifferenceSquare(a.z, target.z);
    hide Product, Realize;
  }

  lemma DifferenceSquare(x: real, y: real)
    ensures Product(x - y, x - y) == Product(x, x) - 2.0 * Product(x, y) + Product(y, y)
  {
  }

  lemma ObjectiveAtZeros(m: Transfer, target: Vec3, eps: real, n: nat)
    requires m.Wide(n)
    ensures Objective(m, target, eps, Zeros(n)) == Dot3(target, target)
  {
    hide Inner;
    InnerZeros(m.r0);
    InnerZeros(m.r1);
    InnerZeros(m.r2);
    InnerZeros(Zeros(n));
    ObjectiveExpands(m, target, eps, Zeros(n));
    ProductZero(0.0);
    ProductZero(target.x);
    ProductZero(target.y);
    ProductZero(target.z);
    ProductZero(eps);
    hide Objective;
  }

  /** Along the gradient the objective is a parabola. */
  lemma ObjectiveAlongGradient(m: Transfer, target: Vec3, eps: real, n: nat, s: real)
    requires m.Wide(n)
    ensures var g := Pull(m, target);
            var K := Dot3(Realize(m, g), Realize(m, g)) + Product(eps, Inner(g, g));
            Objective(m, target, eps, Scaled(g, s)) ==
            Dot3(target, target) + Product(K, Sq(s)) - 2.0 * Product(Inner(g, g), s)
  {
    hide Inner, Pull;
    var g := Pull(m, target);
    var v, a := Scaled(g, s), Realize(m, g);
    ObjectiveExpands(m, target, eps, v);
    InnerScaled(m.r0, g, v, s);
    InnerScaled(m.r1, g, v, s);
    InnerScaled(m.r2, g, v, s);
    InnerScaled(v, g, v, s);
    InnerScaled(g, g, v, s);
    InnerSymmetric(v, g);
    PullAdjoint(m, target, g);
    ScaledSquares(a, target, eps, Inner(g, g), s, Realize(m, v), Inner(v, v));
    hide Objective, Realize, Product;
  }

  lemma ScaledSquares(a: Vec3, t: Vec3, eps: real, gg: real, s: real, b: Vec3, vv: real)
    requires b.x == Product(a.x, s) && b.y == Product(a.y, s) && b.z == Product(a.z, s)
    requires vv == Product(Product(gg, s), s)
    ensures Dot3(b, b) + Product(eps, vv) == Product(Dot3(a, a) + Product(eps, gg), Sq(s))
    ensures Dot3(b, t) == Product(Dot3(a, t), s)
  {
    ScaledSquare(a.x, b.x, s);
    ScaledSquare(a.y, b.y, s);
    ScaledSquare(a.z, b.z, s);
    assert Product(eps, vv) == Product(eps, Product(Product(gg, s), s)) == Product(Product(eps, gg), Sq(s));
    ScaledTerm(a.x, b.x, t.x, s);
    ScaledTerm(a.y, b.y, t.y, s);
    ScaledTerm(a.z, b.z, t.z, s);
    Collect(Product(a.x, t.x), Product(a.y, t.y), Product(a.z, t.z), s);
    Collect(Product(a.x, a.x), Product(a.y, a.y), Product(a.z, a.z), Sq(s));
    Collect(Dot3(a, a), Product(eps, gg), 0.0, Sq(s));
    ProductZero(Sq(s));
    hide Product;
  }

  lemma ScaledSquare(a: real, b: real, s: real)
    requires b == Product(a, s)
    ensures Product(b, b) == Product(Product(a, a), Sq(s))
  {
    assert Product(b, b) == Product(Product(a, s), Product(a, s));
  }

  lemma ScaledTerm(a: real, b: real, t: real, s: real)
    requires b == Product(a, s)
    ensures Product(b, t) == Product(Product(a, t), s)
  {
    assert Product(b, t) == Product(Product(a, s), t);
  }

  /** Zero currents are optimal for a negligible target exactly when the transposed matrix sends the target to zero. */
  lemma NegligibleTargetOptimalIff(m: Transfer, target: Vec3, eps: real, n: nat)
    requires m.Wide(n) && eps >= 0.0
    ensures ZeroIsOptimal(m, target, eps, n) <==> Pull(m, target) == Zeros(n)
  {
    hide Inner, Objective, Pull, Realize;
    var g := Pull(m, target);
    ObjectiveAtZeros(m, target, eps, n);
    if g == Zeros(n) {
      forall v: seq<real> | |v| == n ensures Objective(m, target, eps, Zeros(n)) <= Objective(m, target, eps, v) {
        ObjectiveExpands(m, target, eps, v);
        PullAdjoint(m, target, v);
        InnerZeros(v);
        DotNonNegative(Realize(m, v));
        InnerSquareNonNegative(v);
        WeightedSquare(eps, Inner(v, v));
      }
    } else {
      InnerSquareNonNegative(g);
      var G := Inner(g, g);
      assert G == 0.0 ==> g == Zeros(n);
      var K := Dot3(Realize(m, g), Realize(m, g)) + Product(eps, G);
      DotNonNegative(Realize(m, g));
      WeightedSquare(eps, G);
      var s := BelowParabola(K, G);
      ObjectiveAlongGradient(m, target, eps, n, s);
      assert Objective(m, target, eps, Scaled(g, s)) < Objective(m, target, eps, Zeros(n));
    }
  }

  lemma BelowParabola(K: real, G: real) returns (s: real)
    requires K >= 0.0 && G > 0.0
    ensures Product(K, Sq(s)) - 2.0 * Product(G, s) < 0.0
  {
    s := G / (K + 1.0);
    PositiveQuotient(G, K + 1.0);
    assert Product(K + 1.0, s) == G;
    assert Product(Product(K + 1.0, s), s) == Product(G, s);
    assert Product(Product(K + 1.0, s), s) == Product(K, Sq(s)) + Sq(s);
    ProductOfPositives(G, s);
    ProductOfPositives(s, s);
  }

  // ----- exactly when the allocator is optimal -----

  /** The currents minimise the objective among all current vectors of their length. */
  ghost predicate IsMinimiser(m: Transfer, target: Vec3, eps: real, x: seq<real>)
    requires m.Wide(|x|)
  {
    forall v: seq<real> :: |v| == |x| ==> Objective(m, target, eps, x) <= Objective(m, target, eps, v)
  }

  lemma NegligibleParts(sqrt: real -> real, target: Vec3, rows: seq<seq<real>>, limit: real, eps: real)
    requires Norm(sqrt, target) <= NORM_FLOOR
    requires AllocateModalCommand(sqrt, target, rows, limit, eps).Success?
    ensures limit > 0.0 && eps >= 0.0 && MatrixOk(rows)
    ensures AllocateModalCommand(sqrt, target, rows, limit, eps).value ==
            Allocated(Zeros(|rows[0]|), Vec3(0.0, 0.0, 0.0), 0.0, 0)
  {
    hide Norm, Realize, Saturated, Clipped, Unconstrained;
  }

  /** An unsaturated allocation is optimal exactly when its target is above the norm floor, or the transposed matrix
      sends the target to zero. */
  lemma AllocationOptimalIff(sqrt: real -> real, target: Vec3, rows: seq<seq<real>>, limit: real,
                             eps: real)
    requires var a := AllocateModalCommand(sqrt, target, rows, limit, eps); a.Success? && a.value.saturated == 0
    requires MatrixOk(rows) && Columns(rows).Some?
    ensures var x, m := AllocateModalCommand(sqrt, target, rows, limit, eps).value.currents, Columns(rows).value;
            && |x| == |rows[0]| && m.Wide(|x|)
            && (IsMinimiser(m, target, eps, x) <==>
                  Norm(sqrt, target) > 0.000000000000001 || Pull(m, target) == Zeros(|rows[0]|))
  {
    hide AllocateModalCommand, Norm, Objective, Pull;
    var a, m, n := AllocateModalCommand(sqrt, target, rows, limit, eps).value, Columns(rows).value, |rows[0]|;
    if Norm(sqrt, target) > NORM_FLOOR {
      AllocatedParts(sqrt, target, rows, limit, eps);
      forall v: seq<real> | |v| == n ensures Objective(m, target, eps, a.currents) <= Objective(m, target, eps, v) {
        UnsaturatedIsOptimal(sqrt, target, rows, limit, eps, v);
      }
    } else {
      NegligibleParts(sqrt, target, rows, limit, eps);
      NegligibleTargetOptimalIff(m, target, eps, n);
    }
  }

  /** Without regularisation an unsaturated allocation realises its target exactly when the target is above the floor
      or zero. */
  lemma AllocationHitsTargetIff(sqrt: real -> real, target: Vec3, rows: seq<seq<real>>, limit: real)
    requires var a := AllocateModalCommand(sqrt, target, rows, limit, 0.0); a.Success? && a.value.saturated == 0
    ensures AllocateModalCommand(sqrt, target, rows, limit, 0.0).value.realized == target <==>
            Norm(sqrt, target) > 0.000000000000001 || target == Vec3(0.0, 0.0, 0.0)
  {
    hide AllocateModalCommand, Norm, Objective, Inner;
    if Norm(sqrt, target) > NORM_FLOOR {
      AllocatedParts(sqrt, target, rows, limit, 0.0);
      var a := AllocateModalCommand(sqrt, target, rows, limit, 0.0).value;
      UnsaturatedIsOptimal(sqrt, target, rows, limit, 0.0, a.currents);
    } else {
      NegligibleParts(sqrt, target, rows, limit, 0.0);
    }
  }

  const TINY := Vec3(0.0000000000000001, 0.0, 0.0)
  const PLAIN := Transfer([1.0, 0.0, 0.0, 0.0], [0.0, 1.0, 0.0, 0.0], [0.0, 0.0, 1.0, 0.0])

  function PlainRows(): seq<seq<real>> {
    [PLAIN.r0, PLAIN.r1, PLAIN.r2]
  }

  lemma PlainColumns()
    ensures MatrixOk(PlainRows()) && Columns(PlainRows()) == Some(PLAIN) && |PlainRows()[0]| == 4 && PLAIN.Wide(4)
  {
    assert PLAIN.r1[..4] == PLAIN.r1 && PLAIN.r2[..4] == PLAIN.r2;
  }

  lemma PlainPull()
    ensures PLAIN.Wide(|PLAIN.r0|) && Pull(PLAIN, TINY) != Zeros(4)
  {
    assert Pull(PLAIN, TINY)[0] == TINY.x;
    assert Zeros(4)[0] == 0.0;
  }

  lemma TinyAllocation(sqrt: real -> real)
    requires IsRoot(sqrt)
    ensures AllocateModalCommand(sqrt, TINY, PlainRows(), 3.0, 0.0) ==
            Success(Allocated(Zeros(4), Vec3(0.0, 0.0, 0.0), 0.0, 0))
  {
    hide Norm, Columns, PlainRows, Unconstrained;
    TinyNorm(sqrt);
    PlainColumns();
  }

  /** A reachable target below the floor: the answer is accepted as unsaturated, misses it and is not optimal. */
  lemma TinyTargetIsMissed(sqrt: real -> real)
    requires IsRoot(sqrt)
    ensures var a := AllocateModalCommand(sqrt, TINY, PlainRows(), 3.0, 0.0);
            && a.Success? && a.value.saturated == 0 && a.value.realized != TINY
            && PLAIN.Wide(|a.value.currents|) && !IsMinimiser(PLAIN, TINY, 0.0, a.value.currents)
  {
    hide AllocateModalCommand, Norm, IsMinimiser, Columns, PlainRows, Pull, IsRoot;
    TinyNorm(sqrt);
    TinyAllocation(sqrt);
    PlainColumns();
    PlainPull();
    AllocationOptimalIff(sqrt, TINY, PlainRows(), 3.0, 0.0);
  }

  lemma TinyNorm(sqrt: real -> real)
    requires IsRoot(sqrt)
    ensures Norm(sqrt, TINY) <= NORM_FLOOR
  {
    var r := Norm(sqrt, TINY);
    assert Dot3(TINY, TINY) == Sq(TINY.x);
    assert Sq(TINY.x) >= 0.0;
    assert Sq(r) == Sq(TINY.x) && r >= 0.0;
    assert Sq(NORM_FLOOR) > Sq(TINY.x);
    if r > NORM_FLOOR {
      LargerSquare(NORM_FLOOR, r);
    }
  }

  lemma LargerSquare(a: real, b: real)
    requires 0.0 <= a < b
    ensures Sq(a) < Sq(b)
  {
    ProductOfPositives(b - a, b);
    assert Sq(b) - Sq(a) == Product(b - a, b) + Product(a, b - a);
    if a > 0.0 {
      ProductOfPositives(a, b - a);
    }
  }
}
