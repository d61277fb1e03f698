/** Complex numbers as pairs of reals, with the commutative-ring laws the transforms rely on. */
module ComplexNumbers {

  datatype Complex = Complex(re: real, im: real)

  const Zero: Complex := Complex(0.0, 0.0)
  const One: Complex := Complex(1.0, 0.0)
  const MinusOne: Complex := Complex(-1.0, 0.0)

  function Add(a: Complex, b: Complex): Complex { Complex(a.re + b.re, a.im + b.im) }

  function Sub(a: Complex, b: Complex): Complex { Complex(a.re - b.re, a.im - b.im) }

  function Mul(a: Complex, b: Complex): Complex {
    Complex(a.re * b.re - a.im * b.im, a.re * b.im + a.im * b.re)
  }

  function Scale(r: real, a: Complex): Complex { Complex(r * a.re, r * a.im) }

  function Conj(a: Complex): Complex { Complex(a.re, -a.im) }

  function Pow(z: Complex, n: nat): Complex {
    if n == 0 then One else Mul(z, Pow(z, n - 1))
  }

  lemma MulOne(a: Complex)
    ensures Mul(a, One) == a && Mul(One, a) == a
  {
  }

  lemma AddZero(a: Complex)
    ensures Add(a, Zero) == a && Add(Zero, a) == a
  {
  }

  lemma MulZero(a: Complex)
    ensures Mul(a, Zero) == Zero && Mul(Zero, a) == Zero
  {
  }

  lemma MulMinusOne(a: Complex)
    ensures Mul(MinusOne, a) == Complex(-a.re, -a.im)
  {
  }

  lemma MulReal(r: real, a: Complex)
    ensures Mul(Complex(r, 0.0), a) == Scale(r, a) && Mul(a, Complex(r, 0.0)) == Scale(r, a)
  {
  }

  lemma MulComm(a: Complex, b: Complex)
    ensures Mul(a, b) == Mul(b, a)
  {
  }

  lemma MulAssoc(a: Complex, b: Complex, c: Complex)
    ensures Mul(Mul(a, b), c) == Mul(a, Mul(b, c))
  {
  }

  lemma MulAdd(a: Complex, b: Complex, c: Complex)
    ensures Mul(a, Add(b, c)) == Add(Mul(a, b), Mul(a, c))
  {
  }

  lemma MulSwap(a: Complex, b: Complex, c: Complex)
    ensures Mul(a, Mul(b, c)) == Mul(b, Mul(a, c))
  {
    MulAssoc(a, b, c);
    MulComm(a, b);
    MulAssoc(b, a, c);
    hide Mul;
  }

  lemma {:induction false} PowAdd(z: Complex, a: nat, b: nat)
    ensures Pow(z, a + b) == Mul(Pow(z, a), Pow(z, b))
  {
    if a == 0 {
    } else {
      PowAdd(z, a - 1, b);
      MulAssoc(z, Pow(z, a - 1), Pow(z, b));
    }
  }

  lemma {:induction false} PowProduct(a: Complex, b: Complex, n: nat)
    ensures Pow(Mul(a, b), n) == Mul(Pow(a, n), Pow(b, n))
  {
    if n == 0 {
    } else {
      PowProduct(a, b, n - 1);
      var p, q := Pow(a, n - 1), Pow(b, n - 1);
      calc {
        Mul(Mul(a, b), Mul(p, q));
        { MulAssoc(a, b, Mul(p, q)); }
        Mul(a, Mul(b, Mul(p, q)));
        { MulSwap(b, p, q); }
        Mul(a, Mul(p, Mul(b, q)));
        { MulAssoc(a, p, Mul(b, q)); }
        Mul(Mul(a, p), Mul(b, q));
      }
    }
  }

  lemma {:induction false} PowOfPow(z: Complex, a: nat, b: nat)
    ensures Pow(Pow(z, a), b) == Pow(z, a * b)
  {
    hide Mul;
    if b == 0 {
      assert a * b == 0;
    } else {
      PowOfPow(z, a, b - 1);
      PowAdd(z, a, a * (b - 1));
      assert a * b == a + a * (b - 1);
    }
  }

  lemma {:induction false} PowOne(n: nat)
    ensures Pow(One, n) == One
  {
    hide Mul;
    MulOne(One);
    if n == 0 {
    } else {
      PowOne(n - 1);
    }
  }

  /** Squaring first halves the exponent. */
  lemma PowEven(z: Complex, n: nat)
    ensures Pow(z, 2 * n) == Pow(Mul(z, z), n)
  {
    PowOfPow(z, 2, n);
    assert Pow(z, 2) == Mul(z, z) by {
      assert Pow(z, 1) == Mul(z, Pow(z, 0));
      MulOne(z);
    }
  }
}
