/** The expression language of the symbolic search, and the meaning of its canonical key. */
module Expressions {
  import opened RealArith
  import opened Text

  /** Constants of the search are whole numbers. */
  datatype Expr =
    | X
    | Const(value: int)
    | Add(left: Expr, right: Expr)
    | Sub(left: Expr, right: Expr)
    | Mul(left: Expr, right: Expr)
    | Square(arg: Expr)

  function Evaluate(e: Expr, x: real): real {
    match e
    case X => x
    case Const(c) => c as real
    case Add(l, r) => Evaluate(l, x) + Evaluate(r, x)
    case Sub(l, r) => Evaluate(l, x) - Evaluate(r, x)
    case Mul(l, r) => Product(Evaluate(l, x), Evaluate(r, x))
    case Square(a) => Sq(Evaluate(a, x))
  }

  function Complexity(e: Expr): nat {
    match e
    case X => 1
    case Const(_) => 1
    case Add(l, r) => 1 + Complexity(l) + Complexity(r)
    case Sub(l, r) => 1 + Complexity(l) + Complexity(r)
    case Mul(l, r) => 1 + Complexity(l) + Complexity(r)
    case Square(a) => 1 + Complexity(a)
  }

  function Signed(c: int): string {
    if c < 0 then "-" + Decimal(-c) else Decimal(c)
  }

  /** The operator or leaf at the top, as the key spells it. */
  function Token(e: Expr): string {
    match e
    case X => "x"
    case Const(c) => Signed(c)
    case Add(_, _) => "add"
    case Sub(_, _) => "sub"
    case Mul(_, _) => "mul"
    case Square(_) => "square"
  }

  function FirstOf(a: string, b: string): string {
    if Less(b, a) then b else a
  }

  function SecondOf(a: string, b: string): string {
    if Less(b, a) then a else b
  }

  /** Prefix notation with colons; the operands of a commutative operator are put in order. */
  function Canonical(e: Expr): string {
    match e
    case X => Token(e)
    case Const(_) => Token(e)
    case Square(a) => Token(e) + (":" + Canonical(a))
    case Sub(l, r) => Token(e) + (":" + (Canonical(l) + (":" + Canonical(r))))
    case Add(l, r) =>
      var (a, b) := (Canonical(l), Canonical(r));
      Token(e) + (":" + (FirstOf(a, b) + (":" + SecondOf(a, b))))
    case Mul(l, r) =>
      var (a, b) := (Canonical(l), Canonical(r));
      Token(e) + (":" + (FirstOf(a, b) + (":" + SecondOf(a, b))))
  }

  // ----- reading a key -----

  predicate NoColon(s: string) {
    forall i :: 0 <= i < |s| ==> s[i] != ':'
  }

  /** What may follow a complete subexpression inside a key. */
  predicate Rest(s: string) {
    s == "" || s[0] == ':'
  }

  lemma SignedForm(c: int)
    ensures Signed(c) != "" && NoColon(Signed(c))
    ensures '0' <= Signed(c)[0] <= '9' || Signed(c)[0] == '-'
  {
    DecimalDigits(if c < 0 then -c else c);
  }

  lemma SignedInjective(c: int, d: int)
    requires Signed(c) == Signed(d)
    ensures c == d
  {
    DecimalDigits(if c < 0 then -c else c);
    DecimalDigits(if d < 0 then -d else d);
    DecimalValue(if c < 0 then -c else c);
    DecimalValue(if d < 0 then -d else d);
    SignedForm(c);
    SignedForm(d);
    assert c < 0 ==> Signed(c)[0] == '-' && Signed(c)[1..] == Decimal(-c);
    assert d < 0 ==> Signed(d)[0] == '-' && Signed(d)[1..] == Decimal(-d);
    assert c >= 0 ==> '0' <= Signed(c)[0] <= '9';
    assert d >= 0 ==> '0' <= Signed(d)[0] <= '9';
  }

  lemma TokenForm(e: Expr)
    ensures Token(e) != "" && NoColon(Token(e))
    ensures !e.Const? ==> 'a' <= Token(e)[0] <= 'z'
    ensures e.Const? ==> '0' <= Token(e)[0] <= '9' || Token(e)[0] == '-'
    ensures e.X? ==> Token(e)[0] == 'x'
    ensures e.Add? ==> Token(e)[0] == 'a'
    ensures e.Mul? ==> Token(e)[0] == 'm'
    ensures e.Sub? ==> Token(e)[0] == 's' && |Token(e)| == 3
    ensures e.Square? ==> Token(e)[0] == 's' && |Token(e)| == 6
  {
    if e.Const? {
      SignedForm(e.value);
    }
  }

  ghost predicate SameTop(e: Expr, f: Expr) {
    match e
    case X => f.X?
    case Const(c) => f == e
    case Add(_, _) => f.Add?
    case Sub(_, _) => f.Sub?
    case Mul(_, _) => f.Mul?
    case Square(_) => f.Square?
  }

  lemma TokenDecides(e: Expr, f: Expr)
    requires Token(e) == Token(f)
    ensures SameTop(e, f)
  {
    TokenForm(e);
    TokenForm(f);
    if e.Const? && f.Const? {
      SignedInjective(e.value, f.value);
    }
  }

  lemma TokenNotLonger(t: string, u: string, r: string, s: string)
    requires NoColon(u) && Rest(r) && t + r == u + s
    ensures |u| <= |t|
  {
    assert |t| < |t + r| ==> (t + r)[|t|] == ':';
    assert forall i :: 0 <= i < |u| ==> (u + s)[i] != ':';
  }

  /** A colon-free token is read back as far as the first colon. */
  lemma TokenReads(t: string, u: string, r: string, s: string)
    requires NoColon(t) && NoColon(u) && Rest(r) && Rest(s) && t + r == u + s
    ensures t == u && r == s
  {
    TokenNotLonger(t, u, r, s);
    TokenNotLonger(u, t, s, r);
    assert (t + r)[..|t|] == t && (u + s)[..|u|] == u;
    assert (t + r)[|t|..] == r && (u + s)[|u|..] == s;
  }

  /** The key after its first token. */
  function Operands(e: Expr): string {
    match e
    case X => ""
    case Const(_) => ""
    case Square(a) => ":" + Canonical(a)
    case Sub(l, r) => ":" + (Canonical(l) + (":" + Canonical(r)))
    case Add(l, r) => ":" + (FirstOf(Canonical(l), Canonical(r)) + (":" + SecondOf(Canonical(l), Canonical(r))))
    case Mul(l, r) => ":" + (FirstOf(Canonical(l), Canonical(r)) + (":" + SecondOf(Canonical(l), Canonical(r))))
  }

  lemma KeyParts(e: Expr)
    ensures Canonical(e) == Token(e) + Operands(e) && Rest(Operands(e))
  {
    hide Token, FirstOf, SecondOf;
    assert Token(e) + "" == Token(e);
  }

  lemma KeySplits(e: Expr, r: string)
    requires Rest(r)
    ensures Canonical(e) + r == Token(e) + (Operands(e) + r) && Rest(Operands(e) + r)
  {
    hide Token, Canonical, Operands;
    KeyParts(e);
    assert (Token(e) + Operands(e)) + r == Token(e) + (Operands(e) + r);
    assert Operands(e) == "" ==> Operands(e) + r == r;
  }

  /** The operand written first, and the one written second. */
  function FirstOperand(e: Expr): Expr
    requires !e.X? && !e.Const?
  {
    match e
    case Square(a) => a
    case Sub(l, _) => l
    case Add(l, r) => if Less(Canonical(r), Canonical(l)) then r else l
    case Mul(l, r) => if Less(Canonical(r), Canonical(l)) then r else l
  }

  function SecondOperand(e: Expr): Expr
    requires e.Add? || e.Sub? || e.Mul?
  {
    match e
    case Sub(_, r) => r
    case Add(l, r) => if Less(Canonical(r), Canonical(l)) then l else r
    case Mul(l, r) => if Less(Canonical(r), Canonical(l)) then l else r
  }

  lemma OperandsForm(e: Expr, r: string)
    requires !e.X? && !e.Const?
    ensures e.Square? ==> Operands(e) + r == ":" + (Canonical(FirstOperand(e)) + r)
    ensures !e.Square? ==>
              Operands(e) + r == ":" + (Canonical(FirstOperand(e)) + (":" + (Canonical(SecondOperand(e)) + r)))
  {
    hide Canonical;
  }

  lemma AfterColon(a: string, b: string)
    requires ":" + a == ":" + b
    ensures a == b
  {
    assert (":" + a)[1..] == a && (":" + b)[1..] == b;
  }

  /** A key can be read back: what follows it and the keys of its operands are determined. */
  lemma {:induction false} KeyReads(e: Expr, f: Expr, r: string, s: string)
    requires Rest(r) && Rest(s) && Canonical(e) + r == Canonical(f) + s
    ensures SameTop(e, f) && r == s && Canonical(e) == Canonical(f)
    ensures !e.X? && !e.Const? ==> Canonical(FirstOperand(e)) == Canonical(FirstOperand(f))
    ensures e.Add? || e.Sub? || e.Mul? ==> Canonical(SecondOperand(e)) == Canonical(SecondOperand(f))
    decreases e
  {
    hide Canonical, Token;
    KeySplits(e, r);
    KeySplits(f, s);
    TokenForm(e);
    TokenForm(f);
    TokenReads(Token(e), Token(f), Operands(e) + r, Operands(f) + s);
    TokenDecides(e, f);
    if e.X? || e.Const? {
      assert "" + r == r && "" + s == s;
    } else {
      OperandsForm(e, r);
      OperandsForm(f, s);
      var a, b := Canonical(FirstOperand(e)), Canonical(FirstOperand(f));
      if e.Square? {
        AfterColon(a + r, b + s);
        KeyReads(FirstOperand(e), FirstOperand(f), r, s);
      } else {
        var c, d := Canonical(SecondOperand(e)), Canonical(SecondOperand(f));
        AfterColon(a + (":" + (c + r)), b + (":" + (d + s)));
        KeyReads(FirstOperand(e), FirstOperand(f), ":" + (c + r), ":" + (d + s));
        AfterColon(c + r, d + s);
        KeyReads(SecondOperand(e), SecondOperand(f), r, s);
      }
    }
    SameSuffix(Canonical(e), Canonical(f), r);
  }

  lemma SameSuffix(a: string, b: string, r: string)
    requires a + r == b + r
    ensures a == b
  {
    assert |a| == |b|;
    assert (a + r)[..|a|] == a && (b + r)[..|b|] == b;
  }

  // ----- what the key means -----

  /** The top operation of e, applied to operand values. */
  function Apply(e: Expr, u: real, v: real): real {
    match e
    case Add(_, _) => u + v
    case Sub(_, _) => u - v
    case Mul(_, _) => Product(u, v)
    case _ => Sq(u)
  }

  lemma ValueFromOperands(e: Expr, x: real)
    requires e.Add? || e.Sub? || e.Mul?
    ensures Evaluate(e, x) == Apply(e, Evaluate(FirstOperand(e), x), Evaluate(SecondOperand(e), x))
    ensures Complexity(e) == 1 + Complexity(FirstOperand(e)) + Complexity(SecondOperand(e))
  {
    hide Canonical, Less, Product;
    match e {
      case Add(l, r) =>
      case Sub(l, r) =>
      case Mul(l, r) => Commutes(Evaluate(l, x), Evaluate(r, x));
    }
  }

  lemma Commutes(u: real, v: real)
    ensures Product(u, v) == Product(v, u)
  {
  }

  lemma ValueOfSquare(e: Expr, x: real)
    requires e.Square?
    ensures Evaluate(e, x) == Apply(e, Evaluate(FirstOperand(e), x), 0.0)
    ensures Complexity(e) == 1 + Complexity(FirstOperand(e))
  {
  }

  lemma SameTopApplies(e: Expr, f: Expr, u: real, v: real)
    requires SameTop(e, f) && !e.X? && !e.Const?
    ensures Apply(e, u, v) == Apply(f, u, v)
  {
  }

  lemma SameLeaf(e: Expr, f: Expr, x: real)
    requires SameTop(e, f) && (e.X? || e.Const?)
    ensures Evaluate(e, x) == Evaluate(f, x) && Complexity(e) == Complexity(f)
  {
  }

  /** Expressions with one key have one value at every point and one complexity. */
  lemma {:induction false} KeySound(e: Expr, f: Expr, x: real)
    requires Canonical(e) == Canonical(f)
    ensures Evaluate(e, x) == Evaluate(f, x) && Complexity(e) == Complexity(f)
    decreases e
  {
    hide Canonical, Evaluate, Complexity, Apply;
    assert Canonical(e) + "" == Canonical(f) + "";
    KeyReads(e, f, "", "");
    if e.X? || e.Const? {
      SameLeaf(e, f, x);
    } else {
      KeySound(FirstOperand(e), FirstOperand(f), x);
      var u := Evaluate(FirstOperand(e), x);
      if e.Square? {
        ValueOfSquare(e, x);
        ValueOfSquare(f, x);
        SameTopApplies(e, f, u, 0.0);
      } else {
        KeySound(SecondOperand(e), SecondOperand(f), x);
        ValueFromOperands(e, x);
        ValueFromOperands(f, x);
        SameTopApplies(e, f, u, Evaluate(SecondOperand(e), x));
      }
    }
  }

  /** Swapping the operands of a commutative operator does not change the key. */
  lemma CommutedKeysAgree(l: Expr, r: Expr)
    ensures Canonical(Add(l, r)) == Canonical(Add(r, l)) && Canonical(Mul(l, r)) == Canonical(Mul(r, l))
  {
    var a, b := Canonical(l), Canonical(r);
    LessTotal(a, b);
    if Less(a, b) && Less(b, a) {
      LessTransitive(a, b, a);
      LessIrreflexive(a);
    }
    assert FirstOf(a, b) == FirstOf(b, a) && SecondOf(a, b) == SecondOf(b, a);
  }

  // ----- polynomials -----

  /** The value of a polynomial given by its coefficients, lowest first. */
  function At(p: seq<int>, x: real): real {
    if p == [] then 0.0 else p[0] as real + Product(x, At(p[1..], x))
  }

  function Plus(p: seq<int>, q: seq<int>): seq<int> {
    if p == [] then q else if q == [] then p else [p[0] + q[0]] + Plus(p[1..], q[1..])
  }

  function Scaled(c: int, p: seq<int>): seq<int> {
    if p == [] then [] else [c * p[0]] + Scaled(c, p[1..])
  }

  function Times(p: seq<int>, q: seq<int>): seq<int> {
    if p == [] then [] else Plus(Scaled(p[0], q), [0] + Times(p[1..], q))
  }

  /** The polynomial an expression stands for; its coefficients are whole because the constants are. */
  function Polynomial(e: Expr): seq<int> {
    match e
    case X => [0, 1]
    case Const(c) => [c]
    case Add(l, r) => Plus(Polynomial(r), Polynomial(l))
    case Sub(l, r) => Plus(Scaled(-1, Polynomial(r)), Polynomial(l))
    case Mul(l, r) => Times(Polynomial(l), Polynomial(r))
    case Square(a) => Times(Polynomial(a), Polynomial(a))
  }

  lemma {:induction false} PlusAt(p: seq<int>, q: seq<int>, x: real)
    ensures At(Plus(p, q), x) == At(p, x) + At(q, x)
  {
    if p != [] && q != [] {
      PlusAt(p[1..], q[1..], x);
      assert Plus(p, q)[1..] == Plus(p[1..], q[1..]);
      DistributesOverSum(x, At(p[1..], x), At(q[1..], x));
    }
  }

  lemma {:induction false} ScaledAt(c: int, p: seq<int>, x: real)
    ensures At(Scaled(c, p), x) == Product(c as real, At(p, x))
  {
    if p != [] {
      ScaledAt(c, p[1..], x);
      assert Scaled(c, p)[1..] == Scaled(c, p[1..]);
      ScaledStep(c, p[0], x, At(p[1..], x));
    }
  }

  lemma ScaledStep(c: int, d: int, x: real, u: real)
    ensures (c * d) as real + Product(x, Product(c as real, u)) == Product(c as real, d as real + Product(x, u))
  {
  }

  lemma DistributesOverSum(x: real, u: real, v: real)
    ensures Product(x, u + v) == Product(x, u) + Product(x, v)
    ensures Product(u + v, x) == Product(u, x) + Product(v, x)
  {
  }

  lemma ShiftedProduct(x: real, u: real, v: real)
    ensures Product(x, Product(u, v)) == Product(Product(x, u), v)
  {
  }

  lemma {:induction false} TimesAt(p: seq<int>, q: seq<int>, x: real)
    ensures At(Times(p, q), x) == Product(At(p, x), At(q, x))
  {
    if p != [] {
      var rest := Times(p[1..], q);
      TimesAt(p[1..], q, x);
      ScaledAt(p[0], q, x);
      PlusAt(Scaled(p[0], q), [0] + rest, x);
      assert ([0] + rest)[1..] == rest;
      ShiftedProduct(x, At(p[1..], x), At(q, x));
      DistributesOverSum(At(q, x), p[0] as real, Product(x, At(p[1..], x)));
    }
  }

  /** Every expression has, at every point, the value of its polynomial with whole coefficients. */
  lemma {:induction false} ValueIsPolynomial(e: Expr, x: real)
    ensures Evaluate(e, x) == At(Polynomial(e), x)
    decreases e
  {
    hide Product, Plus, Times, Scaled, At;
    match e {
      case X =>
        LineAt(x);
      case Const(c) =>
        ConstantAt(c, x);
      case Add(l, r) =>
        ValueIsPolynomial(l, x);
        ValueIsPolynomial(r, x);
        PlusAt(Polynomial(r), Polynomial(l), x);
      case Sub(l, r) =>
        ValueIsPolynomial(l, x);
        ValueIsPolynomial(r, x);
        ScaledAt(-1, Polynomial(r), x);
        PlusAt(Scaled(-1, Polynomial(r)), Polynomial(l), x);
        Negated(At(Polynomial(r), x));
      case Mul(l, r) =>
        ValueIsPolynomial(l, x);
        ValueIsPolynomial(r, x);
        TimesAt(Polynomial(l), Polynomial(r), x);
      case Square(a) =>
        ValueIsPolynomial(a, x);
        TimesAt(Polynomial(a), Polynomial(a), x);
    }
  }

  lemma LineAt(x: real)
    ensures At([0, 1], x) == x
  {
    assert [0, 1][1..] == [1] && [1][1..] == [];
    assert At([1], x) == 1.0;
  }

  lemma ConstantAt(c: int, x: real)
    ensures At([c], x) == c as real
  {
    assert [c][1..] == [];
  }

  lemma Negated(u: real)
    ensures Product((-1) as real, u) == -u
  {
  }

  // ----- what the key and the complexity look like -----

  function Colons(s: string): nat {
    if s == "" then 0 else (if s[0] == ':' then 1 else 0) + Colons(s[1..])
  }

  lemma {:induction false} ColonsOfConcat(a: string, b: string)
    ensures Colons(a + b) == Colons(a) + Colons(b)
  {
    if a == "" {
      assert a + b == b;
    } else {
      ColonsOfConcat(a[1..], b);
      assert (a + b)[1..] == a[1..] + b;
    }
  }

  lemma {:induction false} NoColons(s: string)
    requires NoColon(s)
    ensures Colons(s) == 0
  {
    if s != "" {
      NoColons(s[1..]);
    }
  }

  /** The complexity is the number of leaves and operators, which the key separates by colons. */
  lemma {:induction false} ComplexityIsTokens(e: Expr)
    ensures Colons(Canonical(e)) == Complexity(e) - 1
    decreases e
  {
    hide Canonical, Token, Colons;
    KeyParts(e);
    TokenForm(e);
    NoColons(Token(e));
    ColonsOfConcat(Token(e), Operands(e));
    OneColon();
    if e.X? || e.Const? {
    } else {
      var a := Canonical(FirstOperand(e));
      OperandsForm(e, "");
      assert Operands(e) + "" == Operands(e) && a + "" == a;
      ComplexityIsTokens(FirstOperand(e));
      ColonsOfConcat(":", a);
      if e.Square? {
      } else {
        var b := Canonical(SecondOperand(e));
        assert b + "" == b;
        ComplexityIsTokens(SecondOperand(e));
        ColonsOfConcat(":", a + (":" + b));
        ColonsOfConcat(a, ":" + b);
        ColonsOfConcat(":", b);
        ValueFromOperands(e, 0.0);
      }
    }
  }

  lemma OneColon()
    ensures Colons(":") == 1 && Colons("") == 0
  {
    assert ":"[1..] == "";
  }

  lemma LeafNotation(c: int)
    ensures Canonical(X) == "x" && Canonical(Const(c)) == if c >= 0 then Decimal(c) else "-" + Decimal(-c)
  {
  }

  /** The notation of a key: a tag, then the keys of the operands, the smaller one first where they commute. */
  lemma KeyNotation(l: Expr, r: Expr)
    ensures var a, b := Canonical(l), Canonical(r);
            && Canonical(Square(l)) == "square:" + a && Canonical(Sub(l, r)) == "sub:" + (a + (":" + b))
            && (Less(a, b) ==> Canonical(Add(r, l)) == "add:" + (a + (":" + b)))
            && (Less(a, b) ==> Canonical(Mul(r, l)) == "mul:" + (a + (":" + b)))
  {
    var a, b := Canonical(l), Canonical(r);
    Tagged("square", a);
    Tagged("sub", a + (":" + b));
    Tagged("add", a + (":" + b));
    Tagged("mul", a + (":" + b));
  }

  lemma Tagged(t: string, s: string)
    ensures t + (":" + s) == (t + ":") + s
  {
  }
}
