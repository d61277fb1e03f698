/** Periodic square grids of reals: sums over the grid, cyclic shifts and summation by parts. */
module Grid {
  import opened RealArith

  type Field = seq<seq<real>>

  ghost predicate Square(f: Field, n: nat) {
    |f| == n && forall i :: 0 <= i < n ==> |f[i]| == n
  }

  /** Entry (i, j); zero outside the grid, so that it may appear in any closure. */
  function At(f: Field, i: nat, j: nat): real {
    if i < |f| && j < |f[i]| then f[i][j] else 0.0
  }

  function Tabulate(n: nat, entry: (nat, nat) -> real): (f: Field)
    ensures Square(f, n)
    ensures forall i: nat, j: nat :: i < n && j < n ==> At(f, i, j) == entry(i, j)
  {
    seq(n, i requires 0 <= i < n => seq(n, j requires 0 <= j < n => entry(i, j)))
  }

  lemma FieldEquality(f: Field, g: Field, n: nat)
    requires Square(f, n) && Square(g, n)
    requires forall i: nat, j: nat :: i < n && j < n ==> At(f, i, j) == At(g, i, j)
    ensures f == g
  {
    forall i | 0 <= i < n ensures f[i] == g[i] {
      forall j | 0 <= j < n ensures f[i][j] == g[i][j] {
        assert At(f, i, j) == At(g, i, j);
      }
    }
  }

  /** The neighbour index `(i + 1) % n`. */
  function Next(i: nat, n: nat): (r: nat)
    requires i < n
    ensures r < n
  {
    if i + 1 == n then 0 else i + 1
  }

  /** The neighbour index `(i - 1) % n`, Python's modulus being non-negative. */
  function Prev(i: nat, n: nat): (r: nat)
    requires i < n
    ensures r < n && Next(r, n) == i
  {
    if i == 0 then n - 1 else i - 1
  }

  lemma WrapIsModulo(i: nat, n: nat)
    requires i < n
    ensures (i + 1) % n == Next(i, n) && (i - 1) % n == Prev(i, n)
  {
    if i + 1 < n {
      SmallModulo(i + 1, n);
    }
    if i > 0 {
      SmallModulo(i - 1, n);
    } else {
      assert -1 == (-1) * n + (n - 1);
      ModuloUnique(-1, n, -1, n - 1);
    }
  }

  lemma SmallModulo(i: nat, n: nat)
    requires i < n
    ensures i % n == i
  {
  }

  lemma ModuloUnique(a: int, n: int, q: int, r: int)
    requires n > 0 && 0 <= r < n && a == q * n + r
    ensures a % n == r
  {
    var e := q - a / n;
    assert a == n * (a / n) + a % n;
    assert e * n == a % n - r;
    if e >= 1 {
      assert e * n == n + (e - 1) * n;
    } else if e <= -1 {
      assert e * n == -n + (e + 1) * n;
    }
  }

  // ----- sums -----

  function Sum(s: seq<real>): real {
    if s == [] then 0.0 else s[0] + Sum(s[1..])
  }

  function Total(f: Field): real {
    if f == [] then 0.0 else Sum(f[0]) + Total(f[1..])
  }

  lemma {:induction false} SumAppend(a: seq<real>, b: seq<real>)
    ensures Sum(a + b) == Sum(a) + Sum(b)
  {
    if a == [] {
      assert a + b == b;
    } else {
      assert (a + b)[1..] == a[1..] + b;
      SumAppend(a[1..], b);
    }
  }

  lemma {:induction false} TotalAppend(a: Field, b: Field)
    ensures Total(a + b) == Total(a) + Total(b)
  {
    if a == [] {
      assert a + b == b;
    } else {
      assert (a + b)[1..] == a[1..] + b;
      TotalAppend(a[1..], b);
    }
  }

  /** A linear combination, named so that proofs can treat it as one term. */
  function Lin(c: real, x: real, d: real, y: real): real {
    c * x + d * y
  }

  lemma LinAdds(c: real, x: real, x': real, d: real, y: real, y': real)
    ensures Lin(c, x + x', d, y + y') == Lin(c, x, d, y) + Lin(c, x', d, y')
  {
  }

  lemma LinZero(c: real, d: real)
    ensures Lin(c, 0.0, d, 0.0) == 0.0
  {
  }

  lemma {:induction false} SumCombine(h: seq<real>, c: real, f: seq<real>, d: real, g: seq<real>)
    requires |h| == |f| == |g|
    requires forall j :: 0 <= j < |h| ==> h[j] == Lin(c, f[j], d, g[j])
    ensures Sum(h) == Lin(c, Sum(f), d, Sum(g))
  {
    hide Lin;
    if h == [] {
      LinZero(c, d);
    } else {
      SumCombine(h[1..], c, f[1..], d, g[1..]);
      LinAdds(c, f[0], Sum(f[1..]), d, g[0], Sum(g[1..]));
    }
  }

  lemma {:induction false} TotalCombineRows(h: Field, c: real, f: Field, d: real, g: Field)
    requires |h| == |f| == |g|
    requires forall i :: 0 <= i < |h| ==> Sum(h[i]) == Lin(c, Sum(f[i]), d, Sum(g[i]))
    ensures Total(h) == Lin(c, Total(f), d, Total(g))
  {
    hide Lin, Sum;
    if h == [] {
      LinZero(c, d);
    } else {
      var h', f', g' := h[1..], f[1..], g[1..];
      forall i | 0 <= i < |h'| ensures Sum(h'[i]) == Lin(c, Sum(f'[i]), d, Sum(g'[i])) {
        assert h'[i] == h[i + 1] && f'[i] == f[i + 1] && g'[i] == g[i + 1];
      }
      TotalCombineRows(h', c, f', d, g');
      LinAdds(c, Sum(f[0]), Total(f'), d, Sum(g[0]), Total(g'));
    }
  }

  /** The grid sum is linear. */
  lemma TotalCombine(h: Field, c: real, f: Field, d: real, g: Field, n: nat)
    requires Square(h, n) && Square(f, n) && Square(g, n)
    requires forall i: nat, j: nat :: i < n && j < n ==> At(h, i, j) == Lin(c, At(f, i, j), d, At(g, i, j))
    ensures Total(h) == Lin(c, Total(f), d, Total(g))
  {
    hide Lin;
    forall i | 0 <= i < |h| ensures Sum(h[i]) == Lin(c, Sum(f[i]), d, Sum(g[i])) {
      forall j | 0 <= j < n ensures h[i][j] == Lin(c, f[i][j], d, g[i][j]) {
        assert At(h, i, j) == Lin(c, At(f, i, j), d, At(g, i, j));
      }
      SumCombine(h[i], c, f[i], d, g[i]);
    }
    TotalCombineRows(h, c, f, d, g);
  }

  lemma TotalAdd(h: Field, f: Field, g: Field, n: nat)
    requires Square(h, n) && Square(f, n) && Square(g, n)
    requires forall i: nat, j: nat :: i < n && j < n ==> At(h, i, j) == At(f, i, j) + At(g, i, j)
    ensures Total(h) == Total(f) + Total(g)
  {
    forall i: nat, j: nat | i < n && j < n ensures At(h, i, j) == Lin(1.0, At(f, i, j), 1.0, At(g, i, j)) {
    }
    TotalCombine(h, 1.0, f, 1.0, g, n);
  }

  function Plus(f: Field, g: Field, n: nat): (r: Field)
    ensures Square(r, n)
    ensures forall i: nat, j: nat :: i < n && j < n ==> At(r, i, j) == At(f, i, j) + At(g, i, j)
  {
    Tabulate(n, (i: nat, j: nat) => At(f, i, j) + At(g, i, j))
  }

  lemma TotalPlus(f: Field, g: Field, n: nat)
    requires Square(f, n) && Square(g, n)
    ensures Total(Plus(f, g, n)) == Total(f) + Total(g)
  {
    TotalAdd(Plus(f, g, n), f, g, n);
  }

  lemma TotalZero(h: Field, n: nat)
    requires Square(h, n)
    requires forall i: nat, j: nat :: i < n && j < n ==> At(h, i, j) == 0.0
    ensures Total(h) == 0.0
  {
    TotalCombine(h, 0.0, h, 0.0, h, n);
  }

  /** Moving every row to its predecessor's place does not change the sum. */
  lemma TotalShiftRows(g: Field, f: Field, n: nat)
    requires n > 0 && Square(f, n) && Square(g, n)
    requires forall i: nat, j: nat :: i < n && j < n ==> At(g, i, j) == At(f, Next(i, n), j)
    ensures Total(g) == Total(f)
  {
    var shifted := f[1..] + [f[0]];
    forall i: nat, j: nat | i < n && j < n ensures At(shifted, i, j) == At(g, i, j) {
      assert At(g, i, j) == At(f, Next(i, n), j);
    }
    FieldEquality(shifted, g, n);
    TotalAppend(f[1..], [f[0]]);
    TotalAppend([f[0]], f[1..]);
    assert f == [f[0]] + f[1..];
  }

  /** Moving every column to its predecessor's place does not change the sum. */
  lemma TotalShiftColumns(g: Field, f: Field, n: nat)
    requires n > 0 && Square(f, n) && Square(g, n)
    requires forall i: nat, j: nat :: i < n && j < n ==> At(g, i, j) == At(f, i, Next(j, n))
    ensures Total(g) == Total(f)
  {
    forall i | 0 <= i < n ensures Sum(g[i]) == Lin(1.0, Sum(f[i]), 0.0, Sum(f[i])) {
      var row := f[i];
      forall j | 0 <= j < n ensures g[i][j] == (row[1..] + [row[0]])[j] {
        assert At(g, i, j) == At(f, i, Next(j, n));
      }
      assert g[i] == row[1..] + [row[0]];
      SumAppend(row[1..], [row[0]]);
      SumAppend([row[0]], row[1..]);
      assert row == [row[0]] + row[1..];
    }
    TotalCombineRows(g, 1.0, f, 0.0, f);
  }

  /** Inner product of two fields. */
  function Dot(f: Field, g: Field, n: nat): real {
    Total(Times(f, g, n))
  }

  function Times(f: Field, g: Field, n: nat): Field {
    Tabulate(n, (i: nat, j: nat) => Product(At(f, i, j), At(g, i, j)))
  }

  lemma DotCommutes(f: Field, g: Field, n: nat)
    ensures Dot(f, g, n) == Dot(g, f, n)
  {
    FieldEquality(Times(f, g, n), Times(g, f, n), n);
  }

  /** Pointwise c*f + d*g. */
  function Combine(c: real, f: Field, d: real, g: Field, n: nat): Field {
    Tabulate(n, (i: nat, j: nat) => Lin(c, At(f, i, j), d, At(g, i, j)))
  }

  lemma DotCombine(f: Field, c: real, g: Field, d: real, h: Field, n: nat)
    ensures Dot(f, Combine(c, g, d, h, n), n) == Lin(c, Dot(f, g, n), d, Dot(f, h, n))
  {
    hide Lin, Product;
    var k := Combine(c, g, d, h, n);
    forall i: nat, j: nat | i < n && j < n
      ensures At(Times(f, k, n), i, j) == Lin(c, At(Times(f, g, n), i, j), d, At(Times(f, h, n), i, j))
    {
      PullOut(At(f, i, j), At(k, i, j), c, At(g, i, j), d, At(h, i, j));
    }
    TotalCombine(Times(f, k, n), c, Times(f, g, n), d, Times(f, h, n), n);
  }

  lemma PullOut(x: real, k: real, c: real, y: real, d: real, z: real)
    requires k == Lin(c, y, d, z)
    ensures Product(x, k) == Lin(c, Product(x, y), d, Product(x, z))
  {
  }

  // ----- the five-point Laplacian -----

  /** Sum of the four neighbours minus four times the centre. */
  function FivePoint(f: Field, n: nat, i: nat, j: nat): real
    requires i < n && j < n
  {
    At(f, Next(i, n), j) + At(f, Prev(i, n), j) + At(f, i, Next(j, n)) + At(f, i, Prev(j, n)) - 4.0 * At(f, i, j)
  }

  function Laplacian(f: Field, h2: real, n: nat): Field
    requires h2 > 0.0
  {
    Tabulate(n, (i: nat, j: nat) => if i < n && j < n then FivePoint(f, n, i, j) / h2 else 0.0)
  }

  function East(f: Field, n: nat): Field {
    Tabulate(n, (i: nat, j: nat) => if i < n then At(f, Next(i, n), j) else 0.0)
  }

  function North(f: Field, n: nat): Field {
    Tabulate(n, (i: nat, j: nat) => if j < n then At(f, i, Next(j, n)) else 0.0)
  }

  function West(f: Field, n: nat): Field {
    Tabulate(n, (i: nat, j: nat) => if i < n then At(f, Prev(i, n), j) else 0.0)
  }

  function South(f: Field, n: nat): Field {
    Tabulate(n, (i: nat, j: nat) => if j < n then At(f, i, Prev(j, n)) else 0.0)
  }

  /** The shifts are adjoint to each other. */
  lemma ShiftsAreAdjoint(f: Field, g: Field, n: nat)
    requires n > 0
    ensures Dot(f, West(g, n), n) == Dot(East(f, n), g, n)
    ensures Dot(f, South(g, n), n) == Dot(North(f, n), g, n)
  {
    var eastG, fWest := Times(East(f, n), g, n), Times(f, West(g, n), n);
    var northG, fSouth := Times(North(f, n), g, n), Times(f, South(g, n), n);
    forall i: nat, j: nat | i < n && j < n
      ensures At(eastG, i, j) == At(fWest, Next(i, n), j)
      ensures At(northG, i, j) == At(fSouth, i, Next(j, n))
    {
      assert Prev(Next(i, n), n) == i && Prev(Next(j, n), n) == j;
      assert At(West(g, n), Next(i, n), j) == At(g, i, j);
      assert At(South(g, n), i, Next(j, n)) == At(g, i, j);
    }
    TotalShiftRows(eastG, fWest, n);
    TotalShiftColumns(northG, fSouth, n);
  }

  /** The five-point operator as a combination of shifts. */
  lemma DotLaplacian(f: Field, g: Field, h2: real, n: nat)
    requires h2 > 0.0 && n > 0
    ensures h2 * Dot(f, Laplacian(g, h2, n), n) ==
            Dot(f, East(g, n), n) + Dot(f, West(g, n), n) + Dot(f, North(g, n), n) + Dot(f, South(g, n), n)
            - 4.0 * Dot(f, g, n)
  {
    var ew := Combine(1.0, East(g, n), 1.0, West(g, n), n);
    var ns := Combine(1.0, North(g, n), 1.0, South(g, n), n);
    var four := Combine(1.0, ew, 1.0, ns, n);
    DotCombine(f, 1.0, East(g, n), 1.0, West(g, n), n);
    DotCombine(f, 1.0, North(g, n), 1.0, South(g, n), n);
    DotCombine(f, 1.0, ew, 1.0, ns, n);
    DotCombine(f, 1.0, four, -4.0, g, n);
    DotCombine(f, h2, Laplacian(g, h2, n), 0.0, g, n);
    LaplacianAsShifts(g, h2, n);
    hide Dot;
  }

  lemma LaplacianAsShifts(g: Field, h2: real, n: nat)
    requires h2 > 0.0 && n > 0
    ensures var ew := Combine(1.0, East(g, n), 1.0, West(g, n), n);
            var ns := Combine(1.0, North(g, n), 1.0, South(g, n), n);
            Combine(1.0, Combine(1.0, ew, 1.0, ns, n), -4.0, g, n) == Combine(h2, Laplacian(g, h2, n), 0.0, g, n)
  {
    var ew := Combine(1.0, East(g, n), 1.0, West(g, n), n);
    var ns := Combine(1.0, North(g, n), 1.0, South(g, n), n);
    var four := Combine(1.0, ew, 1.0, ns, n);
    var lap := Laplacian(g, h2, n);
    hide Lin, FivePoint;
    forall i: nat, j: nat | i < n && j < n
      ensures At(Combine(1.0, four, -4.0, g, n), i, j) == At(Combine(h2, lap, 0.0, g, n), i, j)
    {
      Rescale(FivePoint(g, n, i, j), h2, At(g, i, j));
      SplitFivePoint(g, n, i, j);
    }
    FieldEquality(Combine(1.0, four, -4.0, g, n), Combine(h2, lap, 0.0, g, n), n);
  }

  lemma SplitFivePoint(g: Field, n: nat, i: nat, j: nat)
    requires i < n && j < n
    ensures Lin(1.0,
                Lin(1.0, Lin(1.0, At(East(g, n), i, j), 1.0, At(West(g, n), i, j)),
                    1.0, Lin(1.0, At(North(g, n), i, j), 1.0, At(South(g, n), i, j))),
                -4.0, At(g, i, j)) == FivePoint(g, n, i, j)
  {
  }

  lemma Rescale(x: real, h2: real, y: real)
    requires h2 != 0.0
    ensures Lin(h2, x / h2, 0.0, y) == x
  {
  }

  /** Summation by parts twice: the periodic Laplacian is symmetric. */
  lemma LaplacianIsSymmetric(f: Field, g: Field, h2: real, n: nat)
    requires h2 > 0.0 && n > 0
    ensures Dot(f, Laplacian(g, h2, n), n) == Dot(g, Laplacian(f, h2, n), n)
  {
    hide Dot, Laplacian, East, West, North, South;
    DotLaplacian(f, g, h2, n);
    DotLaplacian(g, f, h2, n);
    ShiftsAreAdjoint(f, g, n);
    ShiftsAreAdjoint(g, f, n);
    DotCommutes(f, g, n);
    DotCommutes(East(f, n), g, n);
    DotCommutes(North(f, n), g, n);
    DotCommutes(East(g, n), f, n);
    DotCommutes(North(g, n), f, n);
    CancelFactor(h2, Dot(f, Laplacian(g, h2, n), n), Dot(g, Laplacian(f, h2, n), n));
  }

  lemma CancelFactor(c: real, x: real, y: real)
    requires c > 0.0 && c * x == c * y
    ensures x == y
  {
    assert c * (x - y) == 0.0;
  }

  // ----- sums of squares -----

  lemma {:induction false} SumNonNegative(s: seq<real>)
    requires forall j :: 0 <= j < |s| ==> s[j] >= 0.0
    ensures Sum(s) >= 0.0
    ensures Sum(s) == 0.0 ==> forall j :: 0 <= j < |s| ==> s[j] == 0.0
  {
    if s == [] {
    } else {
      SumNonNegative(s[1..]);
      if Sum(s) == 0.0 {
        forall j | 0 <= j < |s| ensures s[j] == 0.0 {
          if j > 0 { assert s[j] == s[1..][j - 1]; }
        }
      }
    }
  }

  lemma {:induction false} RowsNonNegative(f: Field)
    requires forall i :: 0 <= i < |f| ==> Sum(f[i]) >= 0.0
    ensures Total(f) >= 0.0
    ensures Total(f) == 0.0 ==> forall i :: 0 <= i < |f| ==> Sum(f[i]) == 0.0
  {
    if f == [] {
    } else {
      RowsNonNegative(f[1..]);
      if Total(f) == 0.0 {
        forall i | 0 <= i < |f| ensures Sum(f[i]) == 0.0 {
          if i > 0 { assert f[i] == f[1..][i - 1]; }
        }
      }
    }
  }

  /** A field's square sum is non-negative and vanishes only for the zero field. */
  lemma DotPositive(f: Field, n: nat)
    ensures Dot(f, f, n) >= 0.0
    ensures Dot(f, f, n) == 0.0 ==> forall i: nat, j: nat :: i < n && j < n ==> At(f, i, j) == 0.0
  {
    var sq := Times(f, f, n);
    forall i | 0 <= i < n
      ensures Sum(sq[i]) >= 0.0
      ensures Sum(sq[i]) == 0.0 ==> forall j :: 0 <= j < n ==> sq[i][j] == 0.0
    {
      forall j | 0 <= j < n ensures sq[i][j] >= 0.0 {
        assert At(sq, i, j) == Product(At(f, i, j), At(f, i, j));
      }
      SumNonNegative(sq[i]);
    }
    RowsNonNegative(sq);
    if Dot(f, f, n) == 0.0 {
      forall i: nat, j: nat | i < n && j < n ensures At(f, i, j) == 0.0 {
        assert Sum(sq[i]) == 0.0 && sq[i][j] == 0.0;
        assert At(sq, i, j) == Product(At(f, i, j), At(f, i, j));
        SquareZero(At(f, i, j));
      }
    }
  }

  function QuadraticForm(c: real, d: real, x: real, y: real, z: real): real {
    c * c * x + 2.0 * (c * d) * y + d * d * z
  }

  lemma DotCombineSelf(c: real, g: Field, d: real, h: Field, n: nat)
    ensures var k := Combine(c, g, d, h, n);
            Dot(k, k, n) == QuadraticForm(c, d, Dot(g, g, n), Dot(g, h, n), Dot(h, h, n))
  {
    hide Dot, Combine, Lin, QuadraticForm;
    var k := Combine(c, g, d, h, n);
    DotCombine(k, c, g, d, h, n);
    DotCommutes(k, g, n);
    DotCommutes(k, h, n);
    DotCombine(g, c, g, d, h, n);
    DotCombine(h, c, g, d, h, n);
    DotCommutes(h, g, n);
    ExpandSquare(Dot(k, k, n), Dot(k, g, n), Dot(k, h, n), c, d, Dot(g, g, n), Dot(g, h, n), Dot(h, h, n));
  }

  lemma ExpandSquare(kk: real, kg: real, kh: real, c: real, d: real, x: real, y: real, z: real)
    requires kk == Lin(c, kg, d, kh) && kg == Lin(c, x, d, y) && kh == Lin(c, y, d, z)
    ensures kk == QuadraticForm(c, d, x, y, z)
  {
    assert kk == c * (c * x + d * y) + d * (c * y + d * z);
  }

  lemma ShiftsKeepDot(f: Field, n: nat)
    requires n > 0
    ensures Dot(East(f, n), East(f, n), n) == Dot(f, f, n)
    ensures Dot(North(f, n), North(f, n), n) == Dot(f, f, n)
  {
    ShiftsAreAdjoint(f, East(f, n), n);
    ShiftsAreAdjoint(f, North(f, n), n);
    var we, sn := West(East(f, n), n), South(North(f, n), n);
    forall i: nat, j: nat | i < n && j < n
      ensures At(Times(f, we, n), i, j) == At(Times(f, f, n), i, j) == At(Times(f, sn, n), i, j)
    {
      assert At(we, i, j) == At(East(f, n), Prev(i, n), j) == At(f, i, j);
      assert At(sn, i, j) == At(North(f, n), i, Prev(j, n)) == At(f, i, j);
    }
    hide East, North, West, South;
    FieldEquality(Times(f, we, n), Times(f, f, n), n);
    FieldEquality(Times(f, sn, n), Times(f, f, n), n);
  }

  /** Sum over the grid of the squared steps to the east and north neighbours. */
  function Steps(f: Field, n: nat): real {
    var e, m := Combine(1.0, East(f, n), -1.0, f, n), Combine(1.0, North(f, n), -1.0, f, n);
    Dot(e, e, n) + Dot(m, m, n)
  }

  /** The Dirichlet form of the five-point operator. */
  lemma DirichletForm(f: Field, h2: real, n: nat)
    requires h2 > 0.0 && n > 0
    ensures h2 * Dot(f, Laplacian(f, h2, n), n) == -Steps(f, n)
  {
    hide Dot, Laplacian, East, West, North, South, Combine;
    DotLaplacian(f, f, h2, n);
    ShiftsAreAdjoint(f, f, n);
    DotCommutes(f, East(f, n), n);
    DotCommutes(f, North(f, n), n);
    ShiftsKeepDot(f, n);
    DotCombineSelf(1.0, East(f, n), -1.0, f, n);
    DotCombineSelf(1.0, North(f, n), -1.0, f, n);
  }

  /** The only periodic fields with vanishing five-point sum are the constants. */
  lemma HarmonicIsConstant(f: Field, h2: real, n: nat)
    requires h2 > 0.0 && n > 0
    requires forall i: nat, j: nat :: i < n && j < n ==> At(Laplacian(f, h2, n), i, j) == 0.0
    ensures forall i: nat, j: nat :: i < n && j < n ==> At(f, i, j) == At(f, 0, 0)
  {
    DirichletForm(f, h2, n);
    forall i: nat, j: nat | i < n && j < n ensures At(Times(f, Laplacian(f, h2, n), n), i, j) == 0.0 {
      hide Laplacian;
      assert At(Laplacian(f, h2, n), i, j) == 0.0;
    }
    TotalZero(Times(f, Laplacian(f, h2, n), n), n);
    assert Steps(f, n) == 0.0;
    NoSteps(f, n);
    forall i: nat, j: nat | i < n && j < n ensures At(f, i, j) == At(f, 0, 0) {
      FlatAlongRows(f, n, i, j);
    }
  }

  lemma NoSteps(f: Field, n: nat)
    requires Steps(f, n) == 0.0
    ensures forall i: nat, j: nat :: i < n && j < n ==> At(f, Next(i, n), j) == At(f, i, j)
    ensures forall i: nat, j: nat :: i < n && j < n ==> At(f, i, Next(j, n)) == At(f, i, j)
  {
    var e, m := Combine(1.0, East(f, n), -1.0, f, n), Combine(1.0, North(f, n), -1.0, f, n);
    DotPositive(e, n);
    DotPositive(m, n);
    hide Dot;
    forall i: nat, j: nat | i < n && j < n
      ensures At(f, Next(i, n), j) == At(f, i, j) && At(f, i, Next(j, n)) == At(f, i, j)
    {
      assert At(e, i, j) == 0.0 && At(m, i, j) == 0.0;
    }
  }

  lemma {:induction false} FlatAlongRows(f: Field, n: nat, i: nat, j: nat)
    requires i < n && j < n
    requires forall i: nat, j: nat :: i < n && j < n ==> At(f, Next(i, n), j) == At(f, i, j)
    requires forall i: nat, j: nat :: i < n && j < n ==> At(f, i, Next(j, n)) == At(f, i, j)
    ensures At(f, i, j) == At(f, 0, 0)
    decreases i + j
  {
    if i > 0 {
      assert Next(i - 1, n) == i;
      FlatAlongRows(f, n, i - 1, j);
    } else if j > 0 {
      assert Next(j - 1, n) == j;
      FlatAlongRows(f, n, i, j - 1);
    }
  }
}
