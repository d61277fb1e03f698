/** Facts about products of reals. Named products keep the solver's congruence reasoning intact. */
module RealArith {

  function Product(x: real, y: real): real {
    x * y
  }

  lemma SquareZero(x: real)
    requires Product(x, x) == 0.0
    ensures x == 0.0
  {
    if x != 0.0 {
      PositiveSquare(x, x);
    }
  }

  lemma PositiveSquare(x: real, y: real)
    requires x == y && x != 0.0
    ensures Product(x, y) > 0.0
  {
    if x > 0.0 {
      ProductOfPositives(x, y);
    } else {
      ProductOfPositives(-x, -y);
      assert Product(-x, -y) == Product(x, y);
    }
  }

  lemma ProductOfPositives(x: real, y: real)
    requires x > 0.0 && y > 0.0
    ensures Product(x, y) > 0.0
  {
  }

  function Sq(x: real): real {
    Product(x, x)
  }

  lemma SquareNonNegative(x: real)
    ensures Sq(x) >= 0.0 && (Sq(x) == 0.0 ==> x == 0.0)
  {
    if x != 0.0 {
      PositiveSquare(x, x);
    }
  }

  /** `sqrt` is the square root. */
  ghost predicate IsRoot(sqrt: real -> real) {
    forall x :: x >= 0.0 ==> sqrt(x) >= 0.0 && Sq(sqrt(x)) == x
  }

  lemma PositiveQuotient(x: real, y: real)
    requires x > 0.0 && y > 0.0
    ensures x / y > 0.0
  {
  }

  lemma FactorSign(c: real, x: real)
    requires c > 0.0 && Product(c, x) >= 0.0
    ensures x >= 0.0
  {
  }
}
