/** The Arakawa nine-point Jacobian on a periodic grid and the bracket h.J(f, g) it defines.
    Summed against a third field, the stencil is a sum of 3x3 determinants over the right
    triangles of every grid cell, which is what makes it cyclic and antisymmetric. */
module Arakawa {
  import opened Grid
  import opened RealArith

  /** j1 + j2 + j3 of the stencil at (i, j), before the 1/(12 h^2) scale. */
  function Jac(f: Field, g: Field, n: nat, i: nat, j: nat): real
    requires i < n && j < n
  {
    var ip, im, jp, jm := Next(i, n), Prev(i, n), Next(j, n), Prev(j, n);
    var j1 := (At(f, ip, j) - At(f, im, j)) * (At(g, i, jp) - At(g, i, jm))
              - (At(f, i, jp) - At(f, i, jm)) * (At(g, ip, j) - At(g, im, j));
    var j2 := At(f, ip, j) * (At(g, ip, jp) - At(g, ip, jm))
              - At(f, im, j) * (At(g, im, jp) - At(g, im, jm))
              - At(f, i, jp) * (At(g, ip, jp) - At(g, im, jp))
              + At(f, i, jm) * (At(g, ip, jm) - At(g, im, jm));
    var j3 := At(g, i, jp) * (At(f, ip, jp) - At(f, im, jp))
              - At(g, i, jm) * (At(f, ip, jm) - At(f, im, jm))
              - At(g, ip, j) * (At(f, ip, jp) - At(f, ip, jm))
              + At(g, im, j) * (At(f, im, jp) - At(f, im, jm));
    j1 + j2 + j3
  }

  function JacobianField(f: Field, g: Field, scale: real, n: nat): Field {
    Tabulate(n, (i: nat, j: nat) => if i < n && j < n then scale * Jac(f, g, n, i, j) else 0.0)
  }

  /** The four corner values of the cell whose lower-left corner is (i, j). */
  datatype Quad = Quad(a: real, b: real, c: real, d: real)

  function Corners(f: Field, n: nat, i: nat, j: nat): Quad
    requires i < n && j < n
  {
    Quad(At(f, i, j), At(f, Next(i, n), j), At(f, Next(i, n), Next(j, n)), At(f, i, Next(j, n)))
  }

  function Minor(p: real, q: real, p': real, q': real): real {
    p * q' - q * p'
  }

  // Coefficient of h at each corner in the determinants over the triangles abc, abd, acd and bcd.
  function CornerA(f: Quad, g: Quad): real { Minor(f.b, f.c, g.b, g.c) + Minor(f.b, f.d, g.b, g.d) + Minor(f.c, f.d,
                   g.c, g.d) }

  function CornerB(f: Quad, g: Quad): real { Minor(f.c, f.a, g.c, g.a) + Minor(f.d, f.a, g.d, g.a) + Minor(f.c, f.d,
                   g.c, g.d) }

  function CornerC(f: Quad, g: Quad): real { Minor(f.a, f.b, g.a, g.b) + Minor(f.d, f.a, g.d, g.a) + Minor(f.d, f.b,
                   g.d, g.b) }

  function CornerD(f: Quad, g: Quad): real { Minor(f.a, f.b, g.a, g.b) + Minor(f.a, f.c, g.a, g.c) + Minor(f.b, f.c,
                   g.b, g.c) }

  /** Sum of the four determinants of one cell. */
  function Cell(h: Quad, f: Quad, g: Quad): real {
    h.a * CornerA(f, g) + h.b * CornerB(f, g) + h.c * CornerC(f, g) + h.d * CornerD(f, g)
  }

  /** The determinant of the three fields at the corners p, q, r of a triangle. */
  function Det(hp: real, hq: real, hr: real, fp: real, fq: real, fr: real, gp: real, gq: real, gr: real): real {
    hp * Minor(fq, fr, gq, gr) + hq * Minor(fr, fp, gr, gp) + hr * Minor(fp, fq, gp, gq)
  }

  lemma DetSymmetries(hp: real, hq: real, hr: real, fp: real, fq: real, fr: real, gp: real, gq: real, gr: real)
    ensures Det(hp, hq, hr, fp, fq, fr, gp, gq, gr) == Det(fp, fq, fr, gp, gq, gr, hp, hq, hr)
    ensures Det(hp, hq, hr, fp, fq, fr, gp, gq, gr) == -Det(hp, hq, hr, gp, gq, gr, fp, fq, fr)
  {
    DetExpands(hp, hq, hr, fp, fq, fr, gp, gq, gr);
    DetExpands(fp, fq, fr, gp, gq, gr, hp, hq, hr);
    DetExpands(hp, hq, hr, gp, gq, gr, fp, fq, fr);
    hide Det;
  }

  lemma DetExpands(hp: real, hq: real, hr: real, fp: real, fq: real, fr: real, gp: real, gq: real, gr: real)
    ensures Det(hp, hq, hr, fp, fq, fr, gp, gq, gr) ==
            hp * fq * gr - hp * fr * gq + hq * fr * gp - hq * fp * gr + hr * fp * gq - hr * fq * gp
  {
    TimesMinor(hp, fq, fr, gq, gr);
    TimesMinor(hq, fr, fp, gr, gp);
    TimesMinor(hr, fp, fq, gp, gq);
    hide Minor;
  }

  lemma TimesMinor(h: real, p: real, q: real, p': real, q': real)
    ensures h * Minor(p, q, p', q') == h * p * q' - h * q * p'
  {
  }

  lemma CellIsDeterminants(h: Quad, f: Quad, g: Quad)
    ensures Cell(h, f, g) ==
            Det(h.a, h.b, h.c, f.a, f.b, f.c, g.a, g.b, g.c) + Det(h.a, h.b, h.d, f.a, f.b, f.d, g.a, g.b, g.d) +
            Det(h.a, h.c, h.d, f.a, f.c, f.d, g.a, g.c, g.d) + Det(h.b, h.c, h.d, f.b, f.c, f.d, g.b, g.c, g.d)
  {
    Expand(h.a, Minor(f.b, f.c, g.b, g.c), Minor(f.b, f.d, g.b, g.d), Minor(f.c, f.d, g.c, g.d));
    Expand(h.b, Minor(f.c, f.a, g.c, g.a), Minor(f.d, f.a, g.d, g.a), Minor(f.c, f.d, g.c, g.d));
    Expand(h.c, Minor(f.a, f.b, g.a, g.b), Minor(f.d, f.a, g.d, g.a), Minor(f.d, f.b, g.d, g.b));
    Expand(h.d, Minor(f.a, f.b, g.a, g.b), Minor(f.a, f.c, g.a, g.c), Minor(f.b, f.c, g.b, g.c));
    hide Minor;
  }

  lemma Expand(x: real, p: real, q: real, r: real)
    ensures x * (p + q + r) == x * p + x * q + x * r
  {
  }

  /** A cell's contribution is cyclic and antisymmetric in the three fields. */
  lemma CellSymmetries(h: Quad, f: Quad, g: Quad)
    ensures Cell(h, f, g) == Cell(f, g, h)
    ensures Cell(h, f, g) == -Cell(h, g, f)
  {
    hide Cell, Det;
    CellIsDeterminants(h, f, g);
    CellIsDeterminants(f, g, h);
    CellIsDeterminants(h, g, f);
    DetSymmetries(h.a, h.b, h.c, f.a, f.b, f.c, g.a, g.b, g.c);
    DetSymmetries(h.a, h.b, h.d, f.a, f.b, f.d, g.a, g.b, g.d);
    DetSymmetries(h.a, h.c, h.d, f.a, f.c, f.d, g.a, g.c, g.d);
    DetSymmetries(h.b, h.c, h.d, f.b, f.c, f.d, g.b, g.c, g.d);
  }

  /** Every product of the stencil belongs to exactly one of the four cells around the point. */
  lemma JacobianIsCorners(f: Field, g: Field, n: nat, i: nat, j: nat)
    requires i < n && j < n
    ensures var im, jm := Prev(i, n), Prev(j, n);
            Jac(f, g, n, i, j) ==
            CornerA(Corners(f, n, i, j), Corners(g, n, i, j)) +
            CornerB(Corners(f, n, im, j), Corners(g, n, im, j)) +
            CornerC(Corners(f, n, im, jm), Corners(g, n, im, jm)) +
            CornerD(Corners(f, n, i, jm), Corners(g, n, i, jm))
  {
  }

  // ----- the bracket -----

  /** Sum over the grid of h times the stencil applied to f and g. */
  function Bracket(h: Field, f: Field, g: Field, n: nat): real {
    Dot(h, JacobianField(f, g, 1.0, n), n)
  }

  function CornerField(h: Field, f: Field, g: Field, n: nat, corner: nat): Field {
    Tabulate(n, (i: nat, j: nat) =>
      if i < n && j < n
      then CornerProduct(Corners(h, n, i, j), Corners(f, n, i, j), Corners(g, n, i, j), corner) else 0.0)
  }

  function CornerProduct(h: Quad, f: Quad, g: Quad, corner: nat): real {
    match corner
    case 0 => Product(h.a, CornerA(f, g))
    case 1 => Product(h.b, CornerB(f, g))
    case 2 => Product(h.c, CornerC(f, g))
    case _ => Product(h.d, CornerD(f, g))
  }

  function Cells(h: Field, f: Field, g: Field, n: nat): Field {
    Tabulate(n, (i: nat, j: nat) =>
      if i < n && j < n then Cell(Corners(h, n, i, j), Corners(f, n, i, j), Corners(g, n, i, j)) else 0.0)
  }

  lemma CellIsCornerProducts(h: Quad, f: Quad, g: Quad)
    ensures Cell(h, f, g) == CornerProduct(h, f, g, 0) + CornerProduct(h, f, g, 1)
                             + CornerProduct(h, f, g, 2) + CornerProduct(h, f, g, 3)
  {
    hide CornerA, CornerB, CornerC, CornerD;
  }

  lemma {:induction false} SumOfFour(s: Field, a: Field, b: Field, c: Field, d: Field, n: nat)
    requires Square(s, n) && Square(a, n) && Square(b, n) && Square(c, n) && Square(d, n)
    requires forall i: nat, j: nat :: i < n && j < n ==>
             At(s, i, j) == At(a, i, j) + At(b, i, j) + At(c, i, j) + At(d, i, j)
    ensures Total(s) == Total(a) + Total(b) + Total(c) + Total(d)
  {
    var ab := Plus(a, b, n);
    var abc := Plus(ab, c, n);
    TotalPlus(a, b, n);
    TotalPlus(ab, c, n);
    forall i: nat, j: nat | i < n && j < n ensures At(s, i, j) == At(abc, i, j) + At(d, i, j) {
      assert At(abc, i, j) == At(ab, i, j) + At(c, i, j);
      assert At(ab, i, j) == At(a, i, j) + At(b, i, j);
    }
    TotalAdd(s, abc, d, n);
    assert Total(s) == Total(a) + Total(b) + Total(c) + Total(d);
  }

  lemma ShiftsKeepTotal(f: Field, n: nat)
    requires n > 0 && Square(f, n)
    ensures Total(West(f, n)) == Total(f) && Total(South(f, n)) == Total(f)
  {
    forall i: nat, j: nat | i < n && j < n
      ensures At(f, i, j) == At(West(f, n), Next(i, n), j) && At(f, i, j) == At(South(f, n), i, Next(j, n))
    {
      assert Prev(Next(i, n), n) == i && Prev(Next(j, n), n) == j;
    }
    TotalShiftRows(f, West(f, n), n);
    TotalShiftColumns(f, South(f, n), n);
  }

  lemma CellsTotal(h: Field, f: Field, g: Field, n: nat)
    ensures Total(Cells(h, f, g, n)) ==
            Total(CornerField(h, f, g, n, 0)) + Total(CornerField(h, f, g, n, 1)) +
            Total(CornerField(h, f, g, n, 2)) + Total(CornerField(h, f, g, n, 3))
  {
    var a, b := CornerField(h, f, g, n, 0), CornerField(h, f, g, n, 1);
    var c, d := CornerField(h, f, g, n, 2), CornerField(h, f, g, n, 3);
    hide Cell, CornerProduct, Corners, Total;
    forall i: nat, j: nat | i < n && j < n
      ensures At(Cells(h, f, g, n), i, j) == At(a, i, j) + At(b, i, j) + At(c, i, j) + At(d, i, j)
    {
      CellIsCornerProducts(Corners(h, n, i, j), Corners(f, n, i, j), Corners(g, n, i, j));
    }
    SumOfFour(Cells(h, f, g, n), a, b, c, d, n);
  }

  lemma PointsTotal(h: Field, f: Field, g: Field, n: nat)
    requires n > 0
    ensures Bracket(h, f, g, n) ==
            Total(CornerField(h, f, g, n, 0)) + Total(West(CornerField(h, f, g, n, 1), n)) +
            Total(West(South(CornerField(h, f, g, n, 2), n), n)) + Total(South(CornerField(h, f, g, n, 3), n))
  {
    hide CornerField, Total, JacobianField, Times, West, South, At, Tabulate;
    var a, b := CornerField(h, f, g, n, 0), CornerField(h, f, g, n, 1);
    var c, d := CornerField(h, f, g, n, 2), CornerField(h, f, g, n, 3);
    var points := Times(h, JacobianField(f, g, 1.0, n), n);
    forall i: nat, j: nat | i < n && j < n
      ensures At(points, i, j) ==
              At(a, i, j) + At(West(b, n), i, j) + At(West(South(c, n), n), i, j) + At(South(d, n), i, j)
    {
      PointIsShiftedCorners(h, f, g, n, i, j);
    }
    CornerFieldSquare(h, f, g, n, 0);
    TimesSquare(h, JacobianField(f, g, 1.0, n), n);
    ShiftsAreSquare(b, n);
    ShiftsAreSquare(South(c, n), n);
    ShiftsAreSquare(d, n);
    SumOfFour(points, a, West(b, n), West(South(c, n), n), South(d, n), n);
  }

  lemma ShiftsAreSquare(f: Field, n: nat)
    ensures Square(West(f, n), n) && Square(South(f, n), n)
  {
  }

  /** Summation by parts: h.J(f, g) summed over points is the cell form summed over cells. */
  lemma BracketIsCells(h: Field, f: Field, g: Field, n: nat)
    requires n > 0
    ensures Bracket(h, f, g, n) == Total(Cells(h, f, g, n))
  {
    hide Cells, CornerField, Total, West, South, Bracket;
    CellsTotal(h, f, g, n);
    PointsTotal(h, f, g, n);
    CornerFieldSquare(h, f, g, n, 1);
    CornerFieldSquare(h, f, g, n, 2);
    CornerFieldSquare(h, f, g, n, 3);
    ShiftsAreSquare(CornerField(h, f, g, n, 2), n);
    ShiftsKeepTotal(CornerField(h, f, g, n, 1), n);
    ShiftsKeepTotal(CornerField(h, f, g, n, 2), n);
    ShiftsKeepTotal(South(CornerField(h, f, g, n, 2), n), n);
    ShiftsKeepTotal(CornerField(h, f, g, n, 3), n);
  }

  lemma CornerFieldSquare(h: Field, f: Field, g: Field, n: nat, corner: nat)
    ensures Square(CornerField(h, f, g, n, corner), n)
  {
  }

  lemma TimesSquare(f: Field, g: Field, n: nat)
    ensures Square(Times(f, g, n), n)
  {
  }

  lemma CornerFieldAt(h: Field, f: Field, g: Field, n: nat, corner: nat, i: nat, j: nat)
    requires i < n && j < n
    ensures At(CornerField(h, f, g, n, corner), i, j) ==
            CornerProduct(Corners(h, n, i, j), Corners(f, n, i, j), Corners(g, n, i, j), corner)
  {
    hide CornerProduct, Corners;
  }

  lemma ShiftedAt(b: Field, n: nat, i: nat, j: nat)
    requires i < n && j < n
    ensures At(West(b, n), i, j) == At(b, Prev(i, n), j)
    ensures At(South(b, n), i, j) == At(b, i, Prev(j, n))
    ensures At(West(South(b, n), n), i, j) == At(b, Prev(i, n), Prev(j, n))
  {
  }

  lemma StencilAt(h: Field, f: Field, g: Field, n: nat, i: nat, j: nat)
    requires i < n && j < n
    ensures At(Times(h, JacobianField(f, g, 1.0, n), n), i, j) == Product(At(h, i, j), Jac(f, g, n, i, j))
  {
    hide Jac, Product;
  }

  lemma PointIsShiftedCorners(h: Field, f: Field, g: Field, n: nat, i: nat, j: nat)
    requires i < n && j < n
    ensures At(Times(h, JacobianField(f, g, 1.0, n), n), i, j) ==
            At(CornerField(h, f, g, n, 0), i, j) + At(West(CornerField(h, f, g, n, 1), n), i, j) +
            At(West(South(CornerField(h, f, g, n, 2), n), n), i, j) + At(South(CornerField(h, f, g, n, 3), n), i, j)
  {
    hide Jac, CornerA, CornerB, CornerC, CornerD, Product, Corners, CornerField, West, South, Times, JacobianField, At,
         Tabulate;
    var im, jm := Prev(i, n), Prev(j, n);
    StencilAt(h, f, g, n, i, j);
    JacobianIsCorners(f, g, n, i, j);
    CornerValues(h, n, i, j);
    CornerFieldAt(h, f, g, n, 0, i, j);
    CornerFieldAt(h, f, g, n, 1, im, j);
    CornerFieldAt(h, f, g, n, 2, im, jm);
    CornerFieldAt(h, f, g, n, 3, i, jm);
    ShiftedAt(CornerField(h, f, g, n, 1), n, i, j);
    ShiftedAt(CornerField(h, f, g, n, 2), n, i, j);
    ShiftedAt(CornerField(h, f, g, n, 3), n, i, j);
    ProductOfFour(At(h, i, j),
                  CornerA(Corners(f, n, i, j), Corners(g, n, i, j)),
                  CornerB(Corners(f, n, im, j), Corners(g, n, im, j)),
                  CornerC(Corners(f, n, im, jm), Corners(g, n, im, jm)),
                  CornerD(Corners(f, n, i, jm), Corners(g, n, i, jm)));
  }

  /** The point (i, j) seen as each corner of the four cells around it. */
  lemma CornerValues(h: Field, n: nat, i: nat, j: nat)
    requires i < n && j < n
    ensures var im, jm := Prev(i, n), Prev(j, n);
            && Corners(h, n, i, j).a == At(h, i, j)
            && Corners(h, n, im, j).b == At(h, i, j)
            && Corners(h, n, im, jm).c == At(h, i, j)
            && Corners(h, n, i, jm).d == At(h, i, j)
  {
  }

  lemma ProductOfFour(x: real, p: real, q: real, r: real, s: real)
    ensures Product(x, p + q + r + s) == Product(x, p) + Product(x, q) + Product(x, r) + Product(x, s)
  {
  }

  /** The bracket is cyclic and antisymmetric for every triple of periodic fields. */
  lemma BracketSymmetries(h: Field, f: Field, g: Field, n: nat)
    requires n > 0
    ensures Bracket(h, f, g, n) == Bracket(f, g, h, n)
    ensures Bracket(h, f, g, n) == -Bracket(h, g, f, n)
  {
    BracketIsCells(h, f, g, n);
    BracketIsCells(f, g, h, n);
    BracketIsCells(h, g, f, n);
    var hfg, fgh, hgf := Cells(h, f, g, n), Cells(f, g, h, n), Cells(h, g, f, n);
    forall i: nat, j: nat | i < n && j < n
      ensures At(hfg, i, j) == At(fgh, i, j) && At(hgf, i, j) == Lin(-1.0, At(hfg, i, j), 0.0, At(hfg, i, j))
    {
      CellSymmetries(Corners(h, n, i, j), Corners(f, n, i, j), Corners(g, n, i, j));
      hide Cell;
    }
    FieldEquality(hfg, fgh, n);
    TotalCombine(hgf, -1.0, hfg, 0.0, hfg, n);
  }

  /** A repeated argument makes the bracket vanish, wherever it is repeated. */
  lemma BracketVanishes(f: Field, g: Field, n: nat)
    requires n > 0
    ensures Bracket(f, f, g, n) == 0.0 && Bracket(f, g, f, n) == 0.0 && Bracket(g, f, f, n) == 0.0
  {
    hide Bracket;
    BracketSymmetries(f, f, g, n);
    BracketSymmetries(f, g, f, n);
    BracketSymmetries(g, f, f, n);
  }

  // ----- the method -----

  /** The source's double loop, writing one entry at a time, fills in exactly the stencil field. */
  method ArakawaJacobian(f: Field, g: Field, h2: real) returns (out: Field)
    requires h2 > 0.0 && Square(f, |f|) && Square(g, |f|)
    ensures out == JacobianField(f, g, 1.0 / (12.0 * h2), |f|)
  {
    hide Jac;
    var n := |f|;
    out := seq(n, _ => seq(n, _ => 0.0));
    var scale := 1.0 / (12.0 * h2);
    for i := 0 to n
      invariant Square(out, n)
      invariant forall k: nat, j: nat :: k < i && j < n ==> At(out, k, j) == scale * Jac(f, g, n, k, j)
    {
      for j := 0 to n
        invariant Square(out, n)
        invariant forall k: nat, l: nat :: k < i && l < n ==> At(out, k, l) == scale * Jac(f, g, n, k, l)
        invariant forall l: nat :: l < j ==> At(out, i, l) == scale * Jac(f, g, n, i, l)
      {
        var sum := SumDifferences(f, g, n, i, j);
        out := out[i := out[i][j := scale * sum]];
      }
    }
    FieldEquality(out, JacobianField(f, g, scale, n), n);
  }

  /** The three products of differences at one point. */
  method SumDifferences(f: Field, g: Field, n: nat, i: nat, j: nat) returns (sum: real)
    requires i < n && j < n
    ensures sum == Jac(f, g, n, i, j)
  {
    var ip, im, jp, jm := (i + 1) % n, (i - 1) % n, (j + 1) % n, (j - 1) % n;
    WrapIsModulo(i, n);
    WrapIsModulo(j, n);
    var j1 := (At(f, ip, j) - At(f, im, j)) * (At(g, i, jp) - At(g, i, jm))
              - (At(f, i, jp) - At(f, i, jm)) * (At(g, ip, j) - At(g, im, j));
    var j2 := At(f, ip, j) * (At(g, ip, jp) - At(g, ip, jm))
              - At(f, im, j) * (At(g, im, jp) - At(g, im, jm))
              - At(f, i, jp) * (At(g, ip, jp) - At(g, im, jp))
              + At(f, i, jm) * (At(g, ip, jm) - At(g, im, jm));
    var j3 := At(g, i, jp) * (At(f, ip, jp) - At(f, im, jp))
              - At(g, i, jm) * (At(f, ip, jm) - At(f, im, jm))
              - At(g, ip, j) * (At(f, ip, jp) - At(f, ip, jm))
              + At(g, im, j) * (At(f, im, jp) - At(f, im, jm));
    sum := j1 + j2 + j3;
  }

  // ----- linear fields -----

  /** Around (i, j) the field rises by a per step in the first direction and by b in the second. */
  ghost predicate Slopes(f: Field, n: nat, i: nat, j: nat, a: real, b: real)
    requires i < n && j < n
  {
    var ip, im, jp, jm, v := Next(i, n), Prev(i, n), Next(j, n), Prev(j, n), At(f, i, j);
    && At(f, ip, j) == v + a && At(f, im, j) == v - a && At(f, i, jp) == v + b && At(f, i, jm) == v - b
    && At(f, ip, jp) == v + a + b && At(f, ip, jm) == v + a - b
    && At(f, im, jp) == v - a + b && At(f, im, jm) == v - a - b
  }

  /** Where both fields are linear the stencil is twelve times the determinant of their slopes: with spacing h and the
      scale 1/(12 h^2) it is exactly the Jacobian. */
  lemma StencilIsConsistent(f: Field, g: Field, n: nat, i: nat, j: nat, a: real, b: real, c: real, d: real)
    requires i < n && j < n && Slopes(f, n, i, j, a, b) && Slopes(g, n, i, j, c, d)
    ensures Jac(f, g, n, i, j) == 12.0 * Minor(a, b, c, d)
  {
    SlopeTerms(At(f, i, j), At(g, i, j), a, b, c, d);
  }

  lemma SlopeTerms(u: real, v: real, a: real, b: real, c: real, d: real)
    ensures (2.0 * a) * (2.0 * d) - (2.0 * b) * (2.0 * c) == 4.0 * Minor(a, b, c, d)
    ensures (u + a) * (2.0 * d) - (u - a) * (2.0 * d) - (u + b) * (2.0 * c) + (u - b) * (2.0 * c)
            == 4.0 * Minor(a, b, c, d)
    ensures (v + d) * (2.0 * a) - (v - d) * (2.0 * a) - (v + c) * (2.0 * b) + (v - c) * (2.0 * b)
            == 4.0 * Minor(a, b, c, d)
  {
  }
}
