/** Jacobi rotations of a symmetric 3x3 matrix: what each rotation keeps and how fast the off-diagonal shrinks. */
module Jacobi {
  import opened RealArith
  import opened Tridiagonal

  const OFF_FLOOR := 0.00000000000001

  /** A symmetric matrix seen from a pivot: p and q are the pivot's diagonal entries, b the pivot, r the remaining
      diagonal entry, x and y the entries joining it to p and q. */
  datatype Sym = Sym(p: real, q: real, r: real, b: real, x: real, y: real)

  function Trace(a: Sym): real {
    a.p + a.q + a.r
  }

  function Off(a: Sym): real {
    Sq(a.b) + Sq(a.x) + Sq(a.y)
  }

  function Squares(a: Sym): real {
    Sq(a.p) + Sq(a.q) + Sq(a.r) + 2.0 * Off(a)
  }

  function Minor2(a: Sym): real {
    Product(a.p, a.q) - Sq(a.b)
  }

  /** The quadratic form that the last row contributes to the determinant. */
  function Border(a: Sym): real {
    Product(a.p, Sq(a.y)) + Product(a.q, Sq(a.x)) - 2.0 * Product(a.b, Product(a.x, a.y))
  }

  function Det(a: Sym): real {
    Product(a.r, Minor2(a)) - Border(a)
  }

  // ----- the rotation -----

  function Sign(tau: real): real {
    if tau >= 0.0 then 1.0 else -1.0
  }

  /** The smaller root of the tangent equation, its cosine and sine. */
  datatype Angle = Angle(t: real, c: real, s: real)

  lemma RootAtLeastOne(sqrt: real -> real, u: real)
    requires IsRoot(sqrt)
    ensures sqrt(1.0 + Sq(u)) > 0.0
  {
    SquareNonNegative(u);
    var r := sqrt(1.0 + Sq(u));
    assert Sq(r) == 1.0 + Sq(u);
    assert Sq(0.0) == 0.0;
  }

  ghost function AngleOf(sqrt: real -> real, a: Sym): Angle
    requires IsRoot(sqrt) && a.b != 0.0
  {
    var tau := (a.q - a.p) / (2.0 * a.b);
    RootAtLeastOne(sqrt, tau);
    var t := Sign(tau) / (Abs(tau) + sqrt(1.0 + Sq(tau)));
    RootAtLeastOne(sqrt, t);
    var c := 1.0 / sqrt(1.0 + Sq(t));
    Angle(t, c, Product(t, c))
  }

  /** The entries after the rotation, as the source computes them. */
  function Rotated(a: Sym, g: Angle): Sym {
    var (cc, ss, sc) := (Sq(g.c), Sq(g.s), Product(g.s, g.c));
    Sym(Product(cc, a.p) - 2.0 * Product(sc, a.b) + Product(ss, a.q),
        Product(ss, a.p) + 2.0 * Product(sc, a.b) + Product(cc, a.q),
        a.r, 0.0,
        Product(g.c, a.x) - Product(g.s, a.y), Product(g.s, a.x) + Product(g.c, a.y))
  }

  /** What the angle is chosen for: it turns by a proper rotation, and the rotated pivot vanishes. */
  ghost predicate Annihilates(a: Sym, g: Angle) {
    && g.s == Product(g.t, g.c)
    && Sq(g.c) + Sq(g.s) == 1.0
    && Product(Sq(g.t), a.b) + Product(g.t, a.q - a.p) == a.b
  }

  lemma AngleAnnihilates(sqrt: real -> real, a: Sym)
    requires IsRoot(sqrt) && a.b != 0.0
    ensures Annihilates(a, AngleOf(sqrt, a))
  {
    var tau := (a.q - a.p) / (2.0 * a.b);
    RootAtLeastOne(sqrt, tau);
    var root := sqrt(1.0 + Sq(tau));
    SquareNonNegative(tau);
    var t := Sign(tau) / (Abs(tau) + root);
    TangentEquation(tau, root, t);
    RootAtLeastOne(sqrt, t);
    SquareNonNegative(t);
    CosineSquares(t, sqrt(1.0 + Sq(t)));
    ScaledTangent(a, tau, t);
  }

  /** t solves t^2 + 2 tau t = 1. */
  lemma TangentEquation(tau: real, root: real, t: real)
    requires root > 0.0 && Sq(root) == 1.0 + Sq(tau) && Abs(tau) + root > 0.0 && t == Sign(tau) / (Abs(tau) + root)
    ensures Sq(t) + 2.0 * Product(tau, t) == 1.0
  {
    var m := Abs(tau);
    var u := 1.0 / (m + root);
    assert Product(u, m + root) == 1.0;
    assert Sq(m) == Sq(tau);
    // u is root - m, because (root - m)(root + m) = 1.
    assert Product(root - m, root + m) == Sq(root) - Sq(m) == 1.0;
    assert Product(u, Product(root - m, root + m)) == Product(Product(u, m + root), root - m);
    ProductOne(u);
    ProductOne(root - m);
    assert u == root - m;
    assert t == Product(Sign(tau), u);
    assert Sq(t) == Sq(u) && Product(tau, t) == Product(m, u);
    assert Sq(u) == Sq(root) - 2.0 * Product(root, m) + Sq(m);
    assert Product(m, u) == Product(m, root - m) == Product(root, m) - Sq(m);
  }

  lemma ProductOne(x: real)
    ensures Product(1.0, x) == x && Product(x, 1.0) == x
  {
  }

  lemma CosineSquares(t: real, root: real)
    requires root > 0.0 && Sq(root) == 1.0 + Sq(t)
    ensures var c := 1.0 / root; Sq(c) + Sq(Product(t, c)) == 1.0
  {
    var c := 1.0 / root;
    assert Product(c, root) == 1.0;
    assert Product(Product(c, root), Product(c, root)) == Product(Sq(c), Sq(root));
    ProductOne(1.0);
    assert Product(Sq(c), Sq(root)) == Product(Sq(c), 1.0 + Sq(t)) == Sq(c) + Product(Sq(c), Sq(t));
    assert Sq(Product(t, c)) == Product(Sq(c), Sq(t));
  }

  lemma ScaledTangent(a: Sym, tau: real, t: real)
    requires a.b != 0.0 && tau == (a.q - a.p) / (2.0 * a.b) && Sq(t) + 2.0 * Product(tau, t) == 1.0
    ensures Product(Sq(t), a.b) + Product(t, a.q - a.p) == a.b
  {
    assert Product(tau, 2.0 * a.b) == a.q - a.p;
    assert Product(t, Product(tau, 2.0 * a.b)) == Product(t, a.q - a.p);
    assert Product(Sq(t) + 2.0 * Product(tau, t), a.b) == Product(1.0, a.b);
    ProductOne(a.b);
    assert Product(Sq(t) + 2.0 * Product(tau, t), a.b) ==
           Product(Sq(t), a.b) + Product(t, Product(tau, 2.0 * a.b));
  }

  // ----- what one rotation does -----

  /** The squared cosine C, squared sine and their product in terms of the tangent. */
  lemma AngleProducts(a: Sym, g: Angle, C: real)
    requires Annihilates(a, g) && C == Sq(g.c)
    ensures Sq(g.s) == Product(C, Sq(g.t)) && Product(g.s, g.c) == Product(C, g.t)
    ensures C + Product(C, Sq(g.t)) == 1.0
  {
    assert Sq(g.s) == Product(Product(g.t, g.c), Product(g.t, g.c)) == Product(Sq(g.c), Sq(g.t));
    assert Product(g.s, g.c) == Product(Product(g.t, g.c), g.c) == Product(Sq(g.c), g.t);
  }

  /** Terms multiplied by the tangent equation. */
  lemma TangentTimes(b: real, e: real, t: real, k: real)
    requires Product(Sq(t), b) + Product(t, e) == b
    ensures k * (t * t * b) + k * (t * e) == k * b
  {
    assert Product(k, Product(Sq(t), b) + Product(t, e)) == Product(k, b);
  }

  lemma UnitTimes(C: real, t: real, k: real)
    requires C + Product(C, Sq(t)) == 1.0
    ensures C * k + C * (t * t) * k == k
  {
    assert Product(C + Product(C, Sq(t)), k) == Product(1.0, k);
  }

  /** The new diagonal entries are the old ones moved by t b in opposite directions. */
  lemma DiagonalMoves(p: real, q: real, b: real, t: real, C: real)
    requires C + Product(C, Sq(t)) == 1.0 && Product(Sq(t), b) + Product(t, q - p) == b
    ensures Product(C, p) - 2.0 * Product(Product(C, t), b) + Product(Product(C, Sq(t)), q) == p - Product(t, b)
    ensures Product(Product(C, Sq(t)), p) + 2.0 * Product(Product(C, t), b) + Product(C, q) == q + Product(t, b)
  {
    TangentTimes(b, q - p, t, C * t);
    UnitTimes(C, t, p);
    UnitTimes(C, t, q);
    UnitTimes(C, t, t * b);
  }

  lemma NewDiagonal(a: Sym, g: Angle)
    requires Annihilates(a, g)
    ensures Rotated(a, g).p == a.p - Product(g.t, a.b) && Rotated(a, g).q == a.q + Product(g.t, a.b)
  {
    var C := Sq(g.c);
    AngleProducts(a, g, C);
    DiagonalMoves(a.p, a.q, a.b, g.t, C);
    hide Product, Sq;
  }

  /** The border entries turn like a vector, so their squares keep their sum. */
  lemma BorderLength(x: real, y: real, c: real, s: real)
    requires Sq(c) + Sq(s) == 1.0
    ensures Sq(Product(c, x) - Product(s, y)) + Sq(Product(s, x) + Product(c, y)) == Sq(x) + Sq(y)
  {
    assert Sq(Product(c, x) - Product(s, y)) + Sq(Product(s, x) + Product(c, y)) ==
           Product(Sq(c) + Sq(s), Sq(x) + Sq(y));
    ProductOne(Sq(x) + Sq(y));
  }

  lemma MovedProduct(p: real, q: real, b: real, t: real)
    requires Product(Sq(t), b) + Product(t, q - p) == b
    ensures Product(p - Product(t, b), q + Product(t, b)) == Product(p, q) - Sq(b)
  {
    TangentTimes(b, q - p, t, b);
    var d := t * b;
    assert Product(p - d, q + d) == p * q + d * (p - q) - d * d;
    assert d * d == b * (t * t * b);
    assert d * (p - q) == -(b * (t * (q - p)));
  }

  /** Each rotation lowers the sum of squared off-diagonal entries by exactly the squared pivot. */
  lemma RotationShrinksOff(a: Sym, g: Angle)
    requires Annihilates(a, g)
    ensures Off(Rotated(a, g)) == Off(a) - Sq(a.b)
  {
    BorderLength(a.x, a.y, g.c, g.s);
    assert Sq(0.0) == 0.0;
    hide Product, Sq;
  }

  lemma SquaresOfMoved(p: real, q: real, u: real, v: real, b: real)
    requires u + v == p + q && Product(u, v) == Product(p, q) - Sq(b)
    ensures Sq(u) + Sq(v) == Sq(p) + Sq(q) + 2.0 * Sq(b)
  {
    assert Sq(u + v) == Sq(u) + Sq(v) + 2.0 * Product(u, v);
    assert Sq(p + q) == Sq(p) + Sq(q) + 2.0 * Product(p, q);
  }

  /** The trace, the sum of all squared entries and the leading minor survive a rotation. */
  lemma RotationKeepsSums(a: Sym, g: Angle)
    requires Annihilates(a, g)
    ensures Trace(Rotated(a, g)) == Trace(a) && Squares(Rotated(a, g)) == Squares(a)
    ensures Minor2(Rotated(a, g)) == Minor2(a)
  {
    var n := Rotated(a, g);
    NewDiagonal(a, g);
    MovedProduct(a.p, a.q, a.b, g.t);
    RotationShrinksOff(a, g);
    SquaresOfMoved(a.p, a.q, n.p, n.q, a.b);
    assert Sq(0.0) == 0.0;
    hide Product, Sq, Rotated, Off;
  }

  // ----- the determinant -----

  lemma BorderCoefficients(p: real, q: real, b: real, t: real, C: real)
    requires C + Product(C, Sq(t)) == 1.0 && Product(Sq(t), b) + Product(t, q - p) == b
    ensures var (u, v) := (p - Product(t, b), q + Product(t, b));
            && C * (t * t) * u + C * v == q && C * u + C * (t * t) * v == p && C * t * (u - v) == -b
  {
    var d := t * b;
    TangentTimes(b, q - p, t, C * t);
    TangentTimes(b, q - p, t, C);
    UnitTimes(C, t, p);
    UnitTimes(C, t, q);
    UnitTimes(C, t, b);
    assert C * (t * t) * (p - d) + C * (q + d) == C * (t * t) * p + C * q + C * t * b - C * t * (t * t * b);
    assert C * (p - d) + C * (t * t) * (q + d) == C * p + C * (t * t) * q - C * t * b + C * t * (t * t * b);
    assert C * t * ((p - d) - (q + d)) == -(C * (t * (q - p))) - 2.0 * (C * (t * t * b));
  }

  lemma BorderExpands(u: real, v: real, x: real, y: real, c: real, s: real, x': real, y': real)
    requires x' == Product(c, x) - Product(s, y) && y' == Product(s, x) + Product(c, y)
    ensures Product(u, Sq(y')) + Product(v, Sq(x')) ==
            Product(Product(u, Sq(s)) + Product(v, Sq(c)), Sq(x)) +
                Product(Product(u, Sq(c)) + Product(v, Sq(s)), Sq(y))
            + 2.0 * Product(Product(Product(s, c), u - v), Product(x, y))
  {
    var (A, B, D) := (Sq(x), Sq(y), Product(x, y));
    assert Sq(y') == Product(Sq(s), A) + 2.0 * Product(Product(s, c), D) + Product(Sq(c), B);
    assert Sq(x') == Product(Sq(c), A) - 2.0 * Product(Product(s, c), D) + Product(Sq(s), B);
    Weigh(u, Sq(s), A, Product(s, c), D, Sq(c), B, Sq(y'));
    assert -Product(Product(s, c), D) == Product(-Product(s, c), D);
    Weigh(v, Sq(c), A, -Product(s, c), D, Sq(s), B, Sq(x'));
    Gather(Product(u, Sq(s)), Product(v, Sq(c)), A);
    Gather(Product(u, Sq(c)), Product(v, Sq(s)), B);
    Gather(Product(Product(s, c), u), Product(-Product(s, c), v), D);
    assert Product(Product(s, c), u) + Product(-Product(s, c), v) == Product(Product(s, c), u - v);
    hide Product, Sq;
  }

  lemma Weigh(u: real, k: real, A: real, l: real, D: real, m: real, B: real, z: real)
    requires z == Product(k, A) + 2.0 * Product(l, D) + Product(m, B)
    ensures Product(u, z) == Product(Product(u, k), A) + 2.0 * Product(Product(l, u), D) + Product(Product(u, m), B)
  {
    assert Product(u, z) == Product(u, Product(k, A) + 2.0 * Product(l, D) + Product(m, B));
    assert Product(u, Product(k, A) + 2.0 * Product(l, D) + Product(m, B)) ==
           Product(u, Product(k, A)) + 2.0 * Product(u, Product(l, D)) + Product(u, Product(m, B));
    assert Product(u, Product(k, A)) == Product(Product(u, k), A);
    assert Product(u, Product(l, D)) == Product(Product(l, u), D);
    assert Product(u, Product(m, B)) == Product(Product(u, m), B);
  }

  lemma Gather(u: real, v: real, A: real)
    ensures Product(u, A) + Product(v, A) == Product(u + v, A)
  {
  }

  lemma RotationKeepsBorder(a: Sym, g: Angle)
    requires Annihilates(a, g)
    ensures Border(Rotated(a, g)) == Border(a)
  {
    var n, C, t := Rotated(a, g), Sq(g.c), g.t;
    NewDiagonal(a, g);
    AngleProducts(a, g, C);
    BorderCoefficients(a.p, a.q, a.b, t, C);
    BorderExpands(n.p, n.q, a.x, a.y, g.c, g.s, n.x, n.y);
    assert Product(n.p, Sq(g.s)) + Product(n.q, Sq(g.c)) == a.q;
    assert Product(n.p, Sq(g.c)) + Product(n.q, Sq(g.s)) == a.p;
    assert Product(Product(g.s, g.c), n.p - n.q) == -a.b;
    assert Product(0.0, Product(n.x, n.y)) == 0.0;
    assert Product(-a.b, Product(a.x, a.y)) == -Product(a.b, Product(a.x, a.y));
    hide Product, Sq, Rotated;
  }

  /** With trace, squares and determinant unchanged, the rotated matrix has the same eigenvalues. */
  lemma RotationKeepsDet(a: Sym, g: Angle)
    requires Annihilates(a, g)
    ensures Det(Rotated(a, g)) == Det(a)
  {
    RotationKeepsSums(a, g);
    RotationKeepsBorder(a, g);
    assert Rotated(a, g).r == a.r;
    hide Product, Sq, Rotated, Border, Minor2;
  }

  /** The matrix l I - a. */
  function Shifted(a: Sym, l: real): Sym {
    Sym(l - a.p, l - a.q, l - a.r, -a.b, -a.x, -a.y)
  }

  /** The sum of the three principal minors of order two. */
  function MinorSum(a: Sym): real {
    Product(a.p, a.q) + Product(a.p, a.r) + Product(a.q, a.r) - Off(a)
  }

  lemma CharacteristicPolynomial(a: Sym, l: real)
    ensures Det(Shifted(a, l)) ==
            Product(l, Sq(l)) - Product(Trace(a), Sq(l)) + Product(MinorSum(a), l) - Det(a)
  {
    ShiftedMinor(a, l);
    NegatedBorder(a, l);
    ShiftedProduct(l, a.r, Sq(l), a.p + a.q, Minor2(a));
    SplitProduct(Minor2(a) + Product(a.p + a.q, a.r), Sq(a.x) + Sq(a.y), l);
    assert Product(a.p + a.q, a.r) == Product(a.p, a.r) + Product(a.q, a.r);
    hide Product, Sq, Border;
    assert MinorSum(a) == Minor2(a) + Product(a.p + a.q, a.r) - (Sq(a.x) + Sq(a.y));
    assert Trace(a) == a.p + a.q + a.r;
  }

  lemma ShiftedMinor(a: Sym, l: real)
    ensures Minor2(Shifted(a, l)) == Sq(l) - Product(a.p + a.q, l) + Minor2(a)
  {
    assert Product(l - a.p, l - a.q) == Sq(l) - Product(a.p + a.q, l) + Product(a.p, a.q);
    assert Sq(-a.b) == Sq(a.b);
  }

  lemma SplitProduct(u: real, v: real, l: real)
    ensures Product(u - v, l) == Product(u, l) - Product(l, v)
  {
  }

  lemma NegatedBorder(a: Sym, l: real)
    ensures Border(Shifted(a, l)) == Product(l, Sq(a.x) + Sq(a.y)) - Border(a)
  {
    assert Sq(-a.x) == Sq(a.x) && Sq(-a.y) == Sq(a.y);
    assert Product(-a.b, Product(-a.x, -a.y)) == -Product(a.b, Product(a.x, a.y));
    assert Product(l - a.p, Sq(a.y)) == Product(l, Sq(a.y)) - Product(a.p, Sq(a.y));
    assert Product(l - a.q, Sq(a.x)) == Product(l, Sq(a.x)) - Product(a.q, Sq(a.x));
    assert Product(l, Sq(a.x) + Sq(a.y)) == Product(l, Sq(a.x)) + Product(l, Sq(a.y));
    hide Product, Sq;
  }

  lemma ShiftedProduct(l: real, r: real, ll: real, pq: real, m: real)
    requires ll == Sq(l)
    ensures Product(l - r, ll - Product(pq, l) + m) ==
            Product(l, ll) - Product(pq + r, ll) + Product(m + Product(pq, r), l) - Product(r, m)
  {
    assert Product(l, Product(pq, l)) == Product(pq, Sq(l));
    assert Product(r, Product(pq, l)) == Product(Product(pq, r), l);
    assert Product(l - r, ll - Product(pq, l) + m) ==
           Product(l, ll) - Product(l, Product(pq, l)) + Product(l, m)
           - Product(r, ll) + Product(r, Product(pq, l)) - Product(r, m);
    assert Product(pq + r, ll) == Product(pq, ll) + Product(r, ll);
    assert Product(m + Product(pq, r), l) == Product(l, m) + Product(Product(pq, r), l);
  }

  /** A rotation leaves the characteristic polynomial, and so the eigenvalues, unchanged. */
  lemma RotationKeepsSpectrum(a: Sym, g: Angle, l: real)
    requires Annihilates(a, g)
    ensures Det(Shifted(Rotated(a, g), l)) == Det(Shifted(a, l))
  {
    var n := Rotated(a, g);
    RotationKeepsSums(a, g);
    RotationKeepsDet(a, g);
    CharacteristicPolynomial(a, l);
    CharacteristicPolynomial(n, l);
    TraceSquared(a);
    TraceSquared(n);
    hide Product, Sq, Rotated, Det, Squares, MinorSum, Shifted;
  }

  lemma TraceSquared(a: Sym)
    ensures Sq(Trace(a)) == Squares(a) + 2.0 * MinorSum(a)
  {
    assert Sq(a.p + a.q + a.r) ==
           Sq(a.p) + Sq(a.q) + Sq(a.r) + 2.0 * (Product(a.p, a.q) + Product(a.p, a.r) + Product(a.q, a.r));
  }

  // ----- the iteration -----

  ghost predicate Symmetric(a: array2<real>)
    reads a
  {
    a.Length0 == 3 && a.Length1 == 3 && a[1, 0] == a[0, 1] && a[2, 0] == a[0, 2] && a[2, 1] == a[1, 2]
  }

  /** The matrix as seen from the pivot (p, q). */
  ghost function View(a: array2<real>, p: nat, q: nat): Sym
    requires p < q < 3 && a.Length0 == 3 && a.Length1 == 3
    reads a
  {
    var r := 3 - p - q;
    Sym(a[p, p], a[q, q], a[r, r], a[p, q], a[r, p], a[r, q])
  }

  ghost predicate SameInvariants(a: Sym, b: Sym) {
    Trace(a) == Trace(b) && Squares(a) == Squares(b) && Det(a) == Det(b)
  }

  /** Renaming rows and columns changes none of the invariants. */
  lemma Relabelled(a: Sym)
    ensures var (v, w) := (Sym(a.p, a.r, a.q, a.x, a.b, a.y), Sym(a.q, a.r, a.p, a.y, a.b, a.x));
            SameInvariants(v, a) && SameInvariants(w, a) && Off(v) == Off(a) && Off(w) == Off(a)
  {
    RelabelledDet(a.p, a.q, a.r, a.b, a.x, a.y);
    hide Product, Sq;
  }

  lemma RelabelledDet(p: real, q: real, r: real, b: real, x: real, y: real)
    ensures Det(Sym(p, r, q, x, b, y)) == Det(Sym(p, q, r, b, x, y)) == Det(Sym(q, r, p, y, b, x))
  {
    DetForm(p, q, r, b, x, y);
    DetForm(p, r, q, x, b, y);
    DetForm(q, r, p, y, b, x);
    hide Det;
  }

  lemma DetForm(p: real, q: real, r: real, b: real, x: real, y: real)
    ensures Det(Sym(p, q, r, b, x, y)) == p * q * r + 2.0 * (b * x * y) - r * (b * b) - p * (y * y) - q * (x * x)
  {
    assert Product(r, Product(p, q) - Sq(b)) == p * q * r - r * (b * b);
  }

  lemma ViewsAgree(a: array2<real>, p: nat, q: nat)
    requires p < q < 3 && Symmetric(a)
    ensures SameInvariants(View(a, p, q), View(a, 0, 1)) && Off(View(a, p, q)) == Off(View(a, 0, 1))
  {
    hide SameInvariants, Off;
    Relabelled(View(a, 0, 1));
    SameReflexive(View(a, 0, 1));
  }

  lemma SameReflexive(a: Sym)
    ensures SameInvariants(a, a)
  {
  }

  /** The entry of largest size above the diagonal; the first such entry wins. */
  method PickPivot(a: array2<real>) returns (p: nat, q: nat)
    requires Symmetric(a)
    ensures p < q < 3
    ensures forall i: nat, j: nat :: i < j < 3 ==>
              if i < p || (i == p && j < q) then Abs(a[i, j]) < Abs(a[p, q]) else Abs(a[i, j]) <= Abs(a[p, q])
    ensures Sq(a[p, q]) >= Off(View(a, 0, 1)) / 3.0
  {
    p, q := 0, 1;
    if Abs(a[0, 2]) > Abs(a[p, q]) {
      p, q := 0, 2;
    }
    if Abs(a[1, 2]) > Abs(a[p, q]) {
      p, q := 1, 2;
    }
    SquareMonotone(a[0, 1], a[p, q]);
    SquareMonotone(a[0, 2], a[p, q]);
    SquareMonotone(a[1, 2], a[p, q]);
  }

  lemma SquareMonotone(u: real, v: real)
    requires Abs(u) <= Abs(v)
    ensures Sq(u) <= Sq(v)
  {
    var m, n := Abs(u), Abs(v);
    assert Sq(m) == Sq(u) && Sq(n) == Sq(v);
    SquareNonNegative(n - m);
    assert Sq(n) - Sq(m) == Product(n - m, n) + Product(n - m, m);
    if n > m {
      ProductOfPositives(n - m, n);
      if m > 0.0 {
        ProductOfPositives(n - m, m);
      }
    }
  }

  method RotationAngle(ghost v: Sym, app: real, aqq: real, apq: real, sqrt: real -> real) returns (g: Angle)
    requires IsRoot(sqrt) && apq != 0.0 && v.p == app && v.q == aqq && v.b == apq
    ensures g == AngleOf(sqrt, v)
  {
    hide Product, Sq;
    var tau := (aqq - app) / (2.0 * apq);
    RootAtLeastOne(sqrt, tau);
    var sign := if tau >= 0.0 then 1.0 else -1.0;
    var t := sign / (Abs(tau) + sqrt(1.0 + Sq(tau)));
    RootAtLeastOne(sqrt, t);
    var c := 1.0 / sqrt(1.0 + Sq(t));
    g := Angle(t, c, Product(t, c));
  }

  /** One rotation in place: the two rows and columns of the pivot are overwritten, and stay symmetric. */
  method Rotate(a: array2<real>, p: nat, q: nat, sqrt: real -> real)
    requires p < q < 3 && Symmetric(a) && IsRoot(sqrt) && a[p, q] != 0.0
    modifies a
    ensures Symmetric(a)
    ensures View(a, p, q) == Rotated(old(View(a, p, q)), AngleOf(sqrt, old(View(a, p, q))))
  {
    hide Product, Sq, AngleOf, IsRoot;
    var apq, app, aqq := a[p, q], a[p, p], a[q, q];
    var g := RotationAngle(View(a, p, q), app, aqq, apq, sqrt);
    var c, s := g.c, g.s;
    a[p, p] := Product(Sq(c), app) - 2.0 * Product(Product(s, c), apq) + Product(Sq(s), aqq);
    a[q, q] := Product(Sq(s), app) + 2.0 * Product(Product(s, c), apq) + Product(Sq(c), aqq);
    a[p, q], a[q, p] := 0.0, 0.0;
    var r := 3 - p - q;
    assert (p == 0 && q == 1 && r == 2) || (p == 0 && q == 2 && r == 1) || (p == 1 && q == 2 && r == 0);
    var arp, arq := a[r, p], a[r, q];
    a[r, p] := Product(c, arp) - Product(s, arq);
    a[p, r] := a[r, p];
    a[r, q] := Product(s, arp) + Product(c, arq);
    a[q, r] := a[r, q];
  }

  method FromView(start: Sym) returns (a: array2<real>)
    ensures fresh(a) && Symmetric(a) && View(a, 0, 1) == start
  {
    a := new real[3, 3];
    a[0, 0], a[1, 1], a[2, 2] := start.p, start.q, start.r;
    a[0, 1], a[1, 0] := start.b, start.b;
    a[0, 2], a[2, 0] := start.x, start.x;
    a[1, 2], a[2, 1] := start.y, start.y;
  }

  /** (2/3)^k. */
  function Decay(k: nat): real {
    if k == 0 then 1.0 else Decay(k - 1) * 2.0 / 3.0
  }

  ghost predicate Settled(a: Sym) {
    Abs(a.b) <= OFF_FLOOR && Abs(a.x) <= OFF_FLOOR && Abs(a.y) <= OFF_FLOOR
  }

  /** The matrix with rows and columns renamed so that the second or third entry above the diagonal comes first. */
  function Second(a: Sym): Sym {
    Sym(a.p, a.r, a.q, a.x, a.b, a.y)
  }

  function Third(a: Sym): Sym {
    Sym(a.q, a.r, a.p, a.y, a.b, a.x)
  }

  ghost predicate TurnedAway(sqrt: real -> real, a: Sym, n: Sym)
    requires IsRoot(sqrt)
  {
    a.b != 0.0 && n == Rotated(a, AngleOf(sqrt, a))
  }

  /** The first largest entry above the diagonal is rotated away. */
  ghost predicate Turned(sqrt: real -> real, a: Sym, n: Sym)
    requires IsRoot(sqrt)
  {
    if Abs(a.b) >= Abs(a.x) && Abs(a.b) >= Abs(a.y) then TurnedAway(sqrt, a, n)
    else if Abs(a.x) >= Abs(a.y) then TurnedAway(sqrt, Second(a), Second(n))
    else TurnedAway(sqrt, Third(a), Third(n))
  }

  /** A run rotates as long as an entry is above the floor, and forty times at most. */
  ghost predicate IsRun(sqrt: real -> real, trace: seq<Sym>)
    requires IsRoot(sqrt)
  {
    && 1 <= |trace| <= 41
    && forall k :: 0 <= k < |trace| - 1 ==> !Settled(trace[k]) && Turned(sqrt, trace[k], trace[k + 1])
  }

  /** Rotates the largest entry away, unless it is already negligible. */
  method RotateLargest(a: array2<real>, sqrt: real -> real) returns (settled: bool)
    requires Symmetric(a) && IsRoot(sqrt)
    modifies a
    ensures Symmetric(a)
    ensures settled <==> old(Settled(View(a, 0, 1)))
    ensures settled ==> View(a, 0, 1) == old(View(a, 0, 1))
    ensures !settled ==> Turned(sqrt, old(View(a, 0, 1)), View(a, 0, 1))
    ensures !settled ==> SameInvariants(View(a, 0, 1), old(View(a, 0, 1)))
                         && Off(View(a, 0, 1)) <= old(Off(View(a, 0, 1))) * 2.0 / 3.0
  {
    hide SameInvariants, Off, Rotated, AngleOf;
    var p, q := PickPivot(a);
    if Abs(a[p, q]) <= 0.00000000000001 {
      return true;
    }
    ghost var before, seen := View(a, 0, 1), View(a, p, q);
    ViewsAgree(a, p, q);
    Rotate(a, p, q, sqrt);
    ViewsAgree(a, p, q);
    RotationEffect(sqrt, seen);
    SameSymmetric(View(a, p, q), View(a, 0, 1));
    InvariantsChain(View(a, 0, 1), View(a, p, q), seen);
    InvariantsChain(View(a, 0, 1), seen, before);
    return false;
  }

  lemma InvariantsChain(a: Sym, b: Sym, c: Sym)
    requires SameInvariants(a, b) && SameInvariants(b, c)
    ensures SameInvariants(a, c)
  {
  }

  ghost predicate Progress(a: Sym, start: Sym, k: nat) {
    SameInvariants(a, start) && Off(a) <= Product(Decay(k), Off(start))
  }

  lemma ProgressStarts(start: Sym)
    ensures Progress(start, start, 0)
  {
    assert Product(1.0, Off(start)) == Off(start);
  }

  lemma ProgressStep(before: Sym, after: Sym, start: Sym, k: nat)
    requires Progress(before, start, k) && SameInvariants(after, before) && Off(after) <= Off(before) * 2.0 / 3.0
    ensures Progress(after, start, k + 1)
  {
    hide Off, SameInvariants, Product;
    InvariantsChain(after, before, start);
    DecayTerm(Decay(k), Off(start));
  }

  lemma DecayTerm(d: real, off: real)
    ensures Product(d * 2.0 / 3.0, off) == Product(d, off) * 2.0 / 3.0
  {
  }

  // ----- what the returned triple says of the characteristic polynomial -----

  /** The monic cubic with the given roots. */
  function Monic(l: real, x: real, y: real, z: real): real {
    Product(Product(l - x, l - y), l - z)
  }

  /** How far l is from the three roots together. */
  function Gaps(l: real, x: real, y: real, z: real): real {
    Abs(l - x) + Abs(l - y) + Abs(l - z)
  }

  lemma AbsProduct(x: real, y: real)
    requires y >= 0.0
    ensures Abs(Product(x, y)) == Product(Abs(x), y)
  {
  }

  /** Twice a product of three is at most the first factor's bound times the other squares. */
  lemma TripleBelow(b: real, x: real, y: real, root: real)
    requires Abs(b) <= root
    ensures Abs(2.0 * Product(b, Product(x, y))) <= Product(root, Sq(x) + Sq(y))
  {
    SquareNonNegative(x - y);
    SquareNonNegative(x + y);
    var xy, sum := Product(x, y), Sq(x) + Sq(y);
    assert Sq(x - y) == sum - 2.0 * xy && Sq(x + y) == sum + 2.0 * xy;
    assert Abs(2.0 * xy) <= sum;
    AbsOfProduct(b, 2.0 * xy);
    LargerProduct(Abs(b), root, Abs(2.0 * xy), sum);
    assert 2.0 * Product(b, xy) == Product(b, 2.0 * xy);
    hide Sq, Product;
  }

  lemma AbsOfProduct(x: real, y: real)
    ensures Abs(Product(x, y)) == Product(Abs(x), Abs(y))
  {
  }

  lemma LargerProduct(a: real, b: real, c: real, d: real)
    requires 0.0 <= a <= b && 0.0 <= c <= d
    ensures 0.0 <= Product(a, c) <= Product(b, d)
  {
    assert a * c <= b * c && b * c <= b * d;
  }

  /** Expansion of the shifted determinant about the product of its diagonal. */
  lemma ShiftedDet(a: Sym, l: real)
    ensures Det(Shifted(a, l)) == Monic(l, a.p, a.q, a.r) - Product(l - a.r, Sq(a.b)) - Product(l - a.p, Sq(a.y))
                                  - Product(l - a.q, Sq(a.x)) - 2.0 * Product(a.b, Product(a.x, a.y))
  {
    assert Sq(-a.b) == Sq(a.b) && Sq(-a.x) == Sq(a.x) && Sq(-a.y) == Sq(a.y);
    assert Product(-a.b, Product(-a.x, -a.y)) == -Product(a.b, Product(a.x, a.y));
    var u, v := Product(l - a.p, l - a.q), l - a.r;
    assert Product(v, u - Sq(a.b)) == Product(u, v) - Product(v, Sq(a.b));
    hide Product, Sq;
  }

  lemma PivotBelowRoot(sqrt: real -> real, a: Sym)
    requires IsRoot(sqrt)
    ensures Off(a) >= 0.0 && Abs(a.b) <= sqrt(Off(a))
  {
    SquareNonNegative(a.b);
    SquareNonNegative(a.x);
    SquareNonNegative(a.y);
    hide IsRoot;
    SmallerThanRoot(sqrt, a.b, Off(a));
  }

  lemma SmallerThanRoot(sqrt: real -> real, b: real, off: real)
    requires IsRoot(sqrt) && 0.0 <= Sq(b) <= off
    ensures Abs(b) <= sqrt(off)
  {
    var r := sqrt(off);
    assert r >= 0.0 && Sq(r) == off;
    assert Sq(Abs(b)) == Sq(b);
    if Abs(b) > r {
      LargerProduct(r, r, r, Abs(b));
      assert Product(Abs(b), Abs(b) - r) > 0.0 by { ProductOfPositives(Abs(b), Abs(b) - r); }
    }
  }

  /** At every point the characteristic polynomial differs from the cubic with the diagonal as roots by at most what is
      left off the diagonal, times the distances to those roots and its own square root. */
  lemma SpectrumApproximated(sqrt: real -> real, a: Sym, l: real)
    requires IsRoot(sqrt)
    ensures Abs(Det(Shifted(a, l)) - Monic(l, a.p, a.q, a.r)) <=
            Product(Gaps(l, a.p, a.q, a.r) + sqrt(Off(a)), Off(a))
  {
    ShiftedDet(a, l);
    PivotBelowRoot(sqrt, a);
    SquareNonNegative(a.b);
    SquareNonNegative(a.x);
    SquareNonNegative(a.y);
    TripleBelow(a.b, a.x, a.y, sqrt(Off(a)));
    AbsProduct(l - a.r, Sq(a.b));
    AbsProduct(l - a.p, Sq(a.y));
    AbsProduct(l - a.q, Sq(a.x));
    hide IsRoot, Det, Shifted, Monic, Product, Sq;
    GatherBound(Abs(l - a.p), Abs(l - a.q), Abs(l - a.r), sqrt(Off(a)), Sq(a.b), Sq(a.x), Sq(a.y));
  }

  lemma GatherBound(p: real, q: real, r: real, root: real, b: real, x: real, y: real)
    requires p >= 0.0 && q >= 0.0 && r >= 0.0 && root >= 0.0 && b >= 0.0 && x >= 0.0 && y >= 0.0
    ensures Product(r, b) + Product(p, y) + Product(q, x) + Product(root, x + y) <= Product(p + q + r + root, b + x + y)
  {
    var off := b + x + y;
    LargerProduct(r, r, b, off);
    LargerProduct(p, p, y, off);
    LargerProduct(q, q, x, off);
    LargerProduct(root, root, x + y, off);
    assert Product(p + q + r + root, off) == Product(p, off) + Product(q, off) + Product(r, off) + Product(root, off);
  }

  lemma SameSpectrum(a: Sym, b: Sym, l: real)
    requires SameInvariants(a, b)
    ensures Det(Shifted(a, l)) == Det(Shifted(b, l))
  {
    CharacteristicPolynomial(a, l);
    CharacteristicPolynomial(b, l);
    TraceSquared(a);
    TraceSquared(b);
    hide Product, Sq, Det, Squares, MinorSum, Shifted, Trace;
  }

  lemma OrderIrrelevant(l: real, x: real, y: real, z: real)
    ensures Monic(l, x, y, z) == Monic(l, y, x, z) == Monic(l, x, z, y)
    ensures Gaps(l, x, y, z) == Gaps(l, y, x, z) == Gaps(l, x, z, y)
  {
  }

  /** The returned triple are approximate eigenvalues of the start: its characteristic polynomial is the cubic with
      these roots, up to the same bound. */
  ghost predicate ApproximateSpectrum(sqrt: real -> real, start: Sym, off: real, low: real, mid: real, high: real) {
    forall l ::
      Abs(Det(Shifted(start, l)) - Monic(l, low, mid, high)) <= Product(Gaps(l, low, mid, high) + sqrt(off), off)
  }

  lemma SpectrumOfStart(sqrt: real -> real, last: Sym, start: Sym, low: real, mid: real, high: real)
    requires IsRoot(sqrt) && SameInvariants(last, start)
    requires forall l :: Monic(l, low, mid, high) == Monic(l, last.p, last.q, last.r)
    requires forall l :: Gaps(l, low, mid, high) == Gaps(l, last.p, last.q, last.r)
    ensures ApproximateSpectrum(sqrt, start, Off(last), low, mid, high)
  {
    hide IsRoot, SameInvariants, Det, Shifted, Monic, Gaps, Product, Off, Abs;
    forall l ensures Abs(Det(Shifted(start, l)) - Monic(l, low, mid, high)) <=
                     Product(Gaps(l, low, mid, high) + sqrt(Off(last)), Off(last))
    {
      SpectrumApproximated(sqrt, last, l);
      SameSpectrum(last, start, l);
    }
  }

  /** At most forty rotations. The returned diagonal is sorted, adds up to the trace, and its squares account for all
      squared entries except what is left off the diagonal, which is negligible or has shrunk by (2/3)^40. */
  method JacobiEigenvalues(start: Sym, sqrt: real -> real) returns (low: real, mid: real, high: real, ghost last: Sym)
    requires IsRoot(sqrt)
    ensures low <= mid <= high
    ensures multiset{low, mid, high} == multiset{last.p, last.q, last.r}
    ensures SameInvariants(last, start)
    ensures low + mid + high == Trace(start)
    ensures Sq(low) + Sq(mid) + Sq(high) == Squares(start) - 2.0 * Off(last)
    ensures Settled(last) || Off(last) <= Product(Decay(40), Off(start))
    ensures ApproximateSpectrum(sqrt, start, Off(last), low, mid, high)
    ensures exists trace: seq<Sym> ::
              IsRun(sqrt, trace) && trace[0] == start && trace[|trace| - 1] == last
              && (Settled(last) || |trace| == 41)
  {
    hide Turned;
    hide IsRoot, Off, Settled, Sq, Product, Det, Decay, Monic, Gaps, ApproximateSpectrum, Squares, SameInvariants;
    var a := FromView(start);
    ProgressStarts(start);
    var k, settled := 0, false;
    ghost var trace := [start];
    while k < 40 && !settled
      invariant 0 <= k <= 40 && Symmetric(a) && fresh(a)
      invariant Progress(View(a, 0, 1), start, k)
      invariant IsRun(sqrt, trace) && |trace| == k + 1 && trace[0] == start && trace[k] == View(a, 0, 1)
      invariant settled ==> Settled(View(a, 0, 1))
      decreases 40 - k, !settled
    {
      ghost var before := View(a, 0, 1);
      settled := RotateLargest(a, sqrt);
      if !settled {
        ProgressStep(before, View(a, 0, 1), start, k);
        trace := trace + [View(a, 0, 1)];
        k := k + 1;
      }
    }
    last := View(a, 0, 1);
    low, mid, high := Sort3(a[0, 0], a[1, 1], a[2, 2]);
    SumsOfInvariants(last, start);
    SpectrumOfStart(sqrt, last, start, low, mid, high);
  }

  lemma SumsOfInvariants(a: Sym, b: Sym)
    requires SameInvariants(a, b)
    ensures Trace(a) == Trace(b) && Sq(a.p) + Sq(a.q) + Sq(a.r) == Squares(b) - 2.0 * Off(a)
  {
    hide Off, Det, Sq;
  }

  lemma SameSymmetric(a: Sym, b: Sym)
    requires SameInvariants(a, b)
    ensures SameInvariants(b, a)
  {
  }

  lemma RotationEffect(sqrt: real -> real, a: Sym)
    requires IsRoot(sqrt) && a.b != 0.0
    ensures var n := Rotated(a, AngleOf(sqrt, a));
            SameInvariants(n, a) && Off(n) == Off(a) - Sq(a.b)
  {
    var g := AngleOf(sqrt, a);
    AngleAnnihilates(sqrt, a);
    hide AngleOf, Rotated, Annihilates;
    RotationKeepsSums(a, g);
    RotationKeepsDet(a, g);
    RotationShrinksOff(a, g);
  }

  method Sort3(x: real, y: real, z: real) returns (low: real, mid: real, high: real)
    ensures low <= mid <= high && multiset{low, mid, high} == multiset{x, y, z}
    ensures low + mid + high == x + y + z && Sq(low) + Sq(mid) + Sq(high) == Sq(x) + Sq(y) + Sq(z)
    ensures forall l :: Monic(l, low, mid, high) == Monic(l, x, y, z)
    ensures forall l :: Gaps(l, low, mid, high) == Gaps(l, x, y, z)
  {
    hide Sq, Monic, Gaps;
    low, mid, high := x, y, z;
    if mid < low { low, mid := mid, low; }
    if high < mid { mid, high := high, mid; }
    if mid < low { low, mid := mid, low; }
    forall l
      ensures Monic(l, low, mid, high) == Monic(l, x, y, z) && Gaps(l, low, mid, high) == Gaps(l, x, y, z)
    {
      OrderIrrelevant(l, x, y, z);
      OrderIrrelevant(l, y, x, z);
      OrderIrrelevant(l, x, z, y);
      OrderIrrelevant(l, y, z, x);
      OrderIrrelevant(l, z, x, y);
      OrderIrrelevant(l, z, y, x);
    }
  }
}
