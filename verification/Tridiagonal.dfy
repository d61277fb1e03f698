/** The Thomas algorithm: elimination recurrences, correctness of back substitution, uniqueness. */
module Tridiagonal {
  import opened Wrappers

  const PIVOT_FLOOR := 0.000000000000001

  datatype SolveError = InvalidSystem | ZeroDivision | Degenerate

  function Abs(x: real): real {
    if x < 0.0 then -x else x
  }

  function Quot(x: real, y: real): real {
    if y == 0.0 then 0.0 else x / y
  }

  datatype System = System(lower: seq<real>, diagonal: seq<real>, upper: seq<real>, rhs: seq<real>) {
    ghost predicate Shaped() {
      |diagonal| >= 1 && |rhs| == |diagonal| && |lower| >= |diagonal| - 1 && |upper| >= |diagonal| - 1
    }

    function Pivot(k: nat): real
      requires Shaped() && k < |diagonal|
      decreases k, 0
    {
      if k == 0 then diagonal[0] else Schur(diagonal[k], lower[k - 1], CPrime(k - 1))
    }

    function CPrime(k: nat): real
      requires Shaped() && k + 1 < |diagonal|
      decreases k, 1
    {
      Quot(upper[k], Pivot(k))
    }

    function DPrime(k: nat): real
      requires Shaped() && k < |diagonal|
      decreases k, 1
    {
      Quot(if k == 0 then rhs[0] else Schur(rhs[k], lower[k - 1], DPrime(k - 1)), Pivot(k))
    }

    /** Left-hand side of equation `k`. */
    function Apply(x: seq<real>, k: nat): real
      requires Shaped() && |x| == |diagonal| && k < |x|
    {
      (if k == 0 then 0.0 else lower[k - 1] * x[k - 1]) + diagonal[k] * x[k]
      + (if k + 1 == |x| then 0.0 else upper[k] * x[k + 1])
    }

    ghost predicate Solution(x: seq<real>)
      requires Shaped()
    {
      |x| == |diagonal| && forall k: nat :: k < |x| ==> Apply(x, k) == rhs[k]
    }

    ghost predicate PivotsNonzero()
      requires Shaped()
    {
      forall k: nat :: k < |diagonal| ==> Pivot(k) != 0.0
    }

    /** Equation `k` after elimination. */
    ghost predicate Eliminated(x: seq<real>, k: nat)
      requires Shaped() && |x| == |diagonal| && k < |x|
    {
      x[k] == if k + 1 == |x| then DPrime(k) else BackStep(DPrime(k), CPrime(k), x[k + 1])
    }

    lemma PivotProducts(k: nat)
      requires Shaped() && PivotsNonzero() && k < |diagonal|
      ensures k + 1 < |diagonal| ==> CPrime(k) * Pivot(k) == upper[k]
      ensures DPrime(k) * Pivot(k) == if k == 0 then rhs[0] else Schur(rhs[k], lower[k - 1], DPrime(k - 1))
    {
      hide Pivot;
      assert Pivot(k) != 0.0;
    }

    /** Back substitution solves every equation of the original system. */
    lemma EliminatedSolves(x: seq<real>, k: nat)
      requires Shaped() && PivotsNonzero() && |x| == |diagonal| && k < |x|
      requires k > 0 ==> Eliminated(x, k - 1)
      requires Eliminated(x, k)
      ensures Apply(x, k) == rhs[k]
    {
      PivotProducts(k);
      var p, dk := Pivot(k), DPrime(k);
      var last := k + 1 == |x|;
      var next := if last then 0.0 else x[k + 1];
      var u := if last then 0.0 else upper[k];
      var c := if last then 0.0 else CPrime(k);
      var l := if k == 0 then 0.0 else lower[k - 1];
      var c0 := if k == 0 then 0.0 else CPrime(k - 1);
      var d0 := if k == 0 then 0.0 else DPrime(k - 1);
      assert p == Schur(diagonal[k], l, c0) && c * p == u && dk * p == Schur(rhs[k], l, d0);
      hide Pivot, CPrime, DPrime;
      RowAlgebra(l, diagonal[k], u, rhs[k], c0, d0, x[k], next, p, c, dk);
    }

    /** Any solution of the system satisfies the eliminated equations. */
    lemma {:induction false} SolutionEliminated(x: seq<real>, k: nat)
      requires Shaped() && PivotsNonzero() && Solution(x) && k < |x|
      ensures Eliminated(x, k)
    {
      if k == 0 {
      } else {
        SolutionEliminated(x, k - 1);
      }
      SolvedRowEliminates(x, k);
    }

    lemma SolvedRowEliminates(x: seq<real>, k: nat)
      requires Shaped() && PivotsNonzero() && |x| == |diagonal| && k < |x| && Apply(x, k) == rhs[k]
      requires k > 0 ==> Eliminated(x, k - 1)
      ensures Eliminated(x, k)
    {
      PivotProducts(k);
      var p, dk := Pivot(k), DPrime(k);
      var last := k + 1 == |x|;
      var next := if last then 0.0 else x[k + 1];
      var u := if last then 0.0 else upper[k];
      var c := if last then 0.0 else CPrime(k);
      var l := if k == 0 then 0.0 else lower[k - 1];
      var c0 := if k == 0 then 0.0 else CPrime(k - 1);
      var d0 := if k == 0 then 0.0 else DPrime(k - 1);
      assert p == Schur(diagonal[k], l, c0) && c * p == u && dk * p == Schur(rhs[k], l, d0);
      hide Pivot, CPrime, DPrime;
      RowInverse(l, diagonal[k], u, rhs[k], c0, d0, x[k], next, p, c, dk);
    }

    /** With nonzero pivots the system has at most one solution. */
    lemma SolutionUnique(x: seq<real>, y: seq<real>)
      requires Shaped() && PivotsNonzero() && Solution(x) && Solution(y)
      ensures x == y
    {
      forall k: nat | k < |x| ensures x[k] == y[k] {
        SolutionsAgree(x, y, k);
      }
    }

    lemma {:induction false} SolutionsAgree(x: seq<real>, y: seq<real>, k: nat)
      requires Shaped() && PivotsNonzero() && Solution(x) && Solution(y) && k < |x|
      ensures x[k] == y[k]
      decreases |x| - k
    {
      SolutionEliminated(x, k);
      SolutionEliminated(y, k);
      if k + 1 == |x| {
      } else {
        SolutionsAgree(x, y, k + 1);
      }
    }
  }

  /** a - l*c, the update of one elimination step. */
  function Schur(a: real, l: real, c: real): real {
    a - l * c
  }

  function BackStep(d: real, c: real, next: real): real {
    d - c * next
  }

  lemma RowAlgebra(l: real, d: real, u: real, b: real, c0: real, d0: real, x: real, next: real, p: real, c: real,
                   dk: real)
    requires p == Schur(d, l, c0) && c * p == u && dk * p == Schur(b, l, d0) && x == BackStep(dk, c, next)
    ensures l * BackStep(d0, c0, x) + d * x + u * next == b
  {
    assert p * x == dk * p - (c * p) * next;
    assert l * (d0 - c0 * x) == l * d0 - (l * c0) * x;
  }

  lemma RowInverse(l: real, d: real, u: real, b: real, c0: real, d0: real, x: real, next: real, p: real, c: real,
                   dk: real)
    requires p != 0.0 && p == Schur(d, l, c0) && c * p == u && dk * p == Schur(b, l, d0)
    requires l * BackStep(d0, c0, x) + d * x + u * next == b
    ensures x == BackStep(dk, c, next)
  {
    assert l * (d0 - c0 * x) == l * d0 - (l * c0) * x;
    var y := dk - c * next;
    assert p * y == dk * p - (c * p) * next;
    ZeroProduct(p, x - y);
  }

  lemma ZeroProduct(p: real, e: real)
    requires p != 0.0 && p * e == 0.0
    ensures e == 0.0
  {
    assert (p * e) / p == e;
  }

  /** Forward elimination into `cPrime` and `dPrime`, then back substitution. */
  method SolveTridiagonal(lower: seq<real>, diagonal: seq<real>, upper: seq<real>, rhs: seq<real>)
    returns (r: Result<seq<real>, SolveError>)
    requires |lower| >= |diagonal| - 1 && |upper| >= |diagonal| - 1
    ensures r.Success? <==>
            && |diagonal| >= 1 && |rhs| == |diagonal| && diagonal[0] != 0.0
            && forall k: nat :: 1 <= k < |diagonal| ==>
                                  Abs(System(lower, diagonal, upper, rhs).Pivot(k)) > 0.000000000000001
    ensures r.Success? ==> System(lower, diagonal, upper, rhs).Solution(r.value)
    ensures r == Failure(InvalidSystem) <==> |diagonal| == 0 || |rhs| != |diagonal|
    ensures r == Failure(ZeroDivision) <==> |rhs| == |diagonal| >= 1 && diagonal[0] == 0.0
  {
    var size := |diagonal|;
    if size == 0 || |rhs| != size {
      return Failure(InvalidSystem);
    }
    if diagonal[0] == 0.0 {
      return Failure(ZeroDivision);
    }
    var s := System(lower, diagonal, upper, rhs);
    var ok, cPrime, dPrime := Eliminate(s);
    if !ok {
      return Failure(Degenerate);
    }
    var x := BackSubstitute(s, cPrime, dPrime);
    AllEquations(s, x);
    r := Success(x);
  }

  /** The forward pass; it stops at the first pivot within the floor. */
  method Eliminate(s: System) returns (ok: bool, cPrime: array<real>, dPrime: array<real>)
    requires s.Shaped() && 1 <= |s.diagonal| == |s.rhs| && |s.lower| >= |s.diagonal| - 1
             && |s.upper| >= |s.diagonal| - 1
    requires s.diagonal[0] != 0.0
    ensures ok <==> forall k: nat :: 1 <= k < |s.diagonal| ==> Abs(s.Pivot(k)) > PIVOT_FLOOR
    ensures ok ==>
              && (forall k: nat :: k < |s.diagonal| ==> s.Pivot(k) != 0.0)
              && dPrime.Length == |s.diagonal| && cPrime.Length == |s.diagonal| - 1
              && (forall k: nat :: k < dPrime.Length ==> dPrime[k] == s.DPrime(k))
              && forall k: nat :: k < cPrime.Length ==> cPrime[k] == s.CPrime(k)
  {
    hide *;
    var size := |s.diagonal|;
    cPrime := new real[size - 1](_ => 0.0);
    dPrime := new real[size](_ => 0.0);
    if size > 1 {
      cPrime[0] := s.upper[0] / s.diagonal[0];
    }
    dPrime[0] := s.rhs[0] / s.diagonal[0];
    FirstRow(s);
    ok := false;
    for index := 1 to size
      invariant forall k: nat :: k < index ==> s.Pivot(k) != 0.0
      invariant forall k: nat :: 1 <= k < index ==> Abs(s.Pivot(k)) > PIVOT_FLOOR
      invariant forall k: nat :: k < index ==> dPrime[k] == s.DPrime(k)
      invariant forall k: nat :: k < index && k < size - 1 ==> cPrime[k] == s.CPrime(k)
    {
      PivotStep(s, index);
      var denominator := Schur(s.diagonal[index], s.lower[index - 1], cPrime[index - 1]);
      FloorIsPositive(denominator);
      if Abs(denominator) <= PIVOT_FLOOR {
        return;
      }
      QuotIsDivision(denominator);
      if index < size - 1 {
        cPrime[index] := s.upper[index] / denominator;
      }
      dPrime[index] := Schur(s.rhs[index], s.lower[index - 1], dPrime[index - 1]) / denominator;
    }
    ok := true;
  }

  lemma FirstRow(s: System)
    requires s.Shaped() && s.diagonal[0] != 0.0
    ensures s.Pivot(0) == s.diagonal[0] && s.DPrime(0) == s.rhs[0] / s.diagonal[0]
    ensures |s.diagonal| > 1 ==> s.CPrime(0) == s.upper[0] / s.diagonal[0]
  {
  }

  lemma FloorIsPositive(x: real)
    ensures Abs(x) > PIVOT_FLOOR ==> x != 0.0
  {
  }

  lemma QuotIsDivision(y: real)
    requires y != 0.0
    ensures forall x: real :: Quot(x, y) == x / y
  {
  }

  lemma PivotStep(s: System, k: nat)
    requires s.Shaped() && 1 <= k < |s.diagonal|
    ensures s.Pivot(k) == Schur(s.diagonal[k], s.lower[k - 1], s.CPrime(k - 1))
    ensures s.DPrime(k) == Quot(Schur(s.rhs[k], s.lower[k - 1], s.DPrime(k - 1)), s.Pivot(k))
    ensures k + 1 < |s.diagonal| ==> s.CPrime(k) == Quot(s.upper[k], s.Pivot(k))
  {
  }

  lemma AllEquations(s: System, x: seq<real>)
    requires s.Shaped() && s.PivotsNonzero() && |x| == |s.diagonal|
    requires forall k: nat :: k < |x| ==> s.Eliminated(x, k)
    ensures s.Solution(x)
  {
    forall k: nat | k < |x| ensures s.Apply(x, k) == s.rhs[k] {
      s.EliminatedSolves(x, k);
    }
  }

  method BackSubstitute(ghost s: System, cPrime: array<real>, dPrime: array<real>) returns (x: seq<real>)
    requires s.Shaped() && 1 <= dPrime.Length == |s.diagonal| && cPrime.Length == |s.diagonal| - 1
    requires forall k: nat :: k < dPrime.Length ==> dPrime[k] == s.DPrime(k)
    requires forall k: nat :: k < cPrime.Length ==> cPrime[k] == s.CPrime(k)
    ensures |x| == |s.diagonal| && forall k: nat :: k < |x| ==> s.Eliminated(x, k)
  {
    var size := dPrime.Length;
    var solution := new real[size](_ => 0.0);
    solution[size - 1] := dPrime[size - 1];
    var index := size - 2;
    while index > -1
      invariant -1 <= index <= size - 2
      invariant solution[size - 1] == dPrime[size - 1]
      invariant forall k: nat :: index < k < size - 1 ==> solution[k] == BackStep(dPrime[k], cPrime[k], solution[k + 1])
    {
      hide *;
      solution[index] := BackStep(dPrime[index], cPrime[index], solution[index + 1]);
      index := index - 1;
    }
    x := solution[..];
    forall k: nat | k < size ensures s.Eliminated(x, k) {
      EliminatedIntro(s, x, k, dPrime[k], if k + 1 < size then cPrime[k] else 0.0);
    }
  }

  lemma EliminatedIntro(s: System, x: seq<real>, k: nat, d: real, c: real)
    requires s.Shaped() && |x| == |s.diagonal| && k < |x| && d == s.DPrime(k) && (k + 1 < |x| ==> c == s.CPrime(k))
    requires x[k] == if k + 1 == |x| then d else BackStep(d, c, x[k + 1])
    ensures s.Eliminated(x, k)
  {
  }
}
