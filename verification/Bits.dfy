/** Bitwise operators on naturals, powers of two and the bit-reversal permutation.
    Python integers are unbounded, so `&` and `^` are defined by recursion on the binary digits. */
module Bits {

  function Exp2(m: nat): (r: nat)
    ensures r >= 1
  {
    if m == 0 then 1 else 2 * Exp2(m - 1)
  }

  function BitAnd(a: nat, b: nat): nat {
    if a == 0 || b == 0 then 0 else 2 * BitAnd(a / 2, b / 2) + (a % 2) * (b % 2)
  }

  function BitXor(a: nat, b: nat): nat
    decreases a + b
  {
    if a == 0 then b else if b == 0 then a else 2 * BitXor(a / 2, b / 2) + (a % 2 + b % 2) % 2
  }

  ghost predicate IsPowerOfTwo(n: nat) {
    exists m: nat :: n == Exp2(m)
  }

  /** Binary logarithm, exact on powers of two. */
  function Log2(n: nat): (m: nat)
    requires n >= 1
  {
    if n == 1 then 0 else 1 + Log2(n / 2)
  }

  lemma {:induction false} Log2OfExp2(m: nat)
    ensures Log2(Exp2(m)) == m
  {
    if m == 0 {
    } else {
      Log2OfExp2(m - 1);
      assert Exp2(m) / 2 == Exp2(m - 1);
    }
  }

  /** The guard `n & (n - 1)` is zero exactly on powers of two. */
  lemma {:induction false} AndPredecessorIsPowerOfTwoTest(n: nat)
    requires n >= 1
    ensures BitAnd(n, n - 1) == 0 <==> IsPowerOfTwo(n)
  {
    if n == 1 {
      assert n == Exp2(0);
    } else if n % 2 == 1 {
      // n and n - 1 share every digit but the last, so the conjunction is n - 1 itself
      AndSelf(n / 2);
      assert (n - 1) / 2 == n / 2 && (n - 1) % 2 == 0;
      assert BitAnd(n, n - 1) != 0;
      assert !IsPowerOfTwo(n) by {
        if m: nat :| n == Exp2(m) {
          assert false;
        }
      }
    } else {
      AndPredecessorIsPowerOfTwoTest(n / 2);
      assert (n - 1) / 2 == n / 2 - 1 && n % 2 == 0;
      assert BitAnd(n, n - 1) == 2 * BitAnd(n / 2, n / 2 - 1);
      if IsPowerOfTwo(n / 2) {
        var m: nat :| n / 2 == Exp2(m);
        assert n == Exp2(m + 1);
      }
      if IsPowerOfTwo(n) {
        var m: nat :| n == Exp2(m);
        assert n / 2 == Exp2(m - 1);
      }
    }
  }

  lemma {:induction false} AndSelf(a: nat)
    ensures BitAnd(a, a) == a
  {
    if a == 0 {
    } else {
      AndSelf(a / 2);
      var bit := a % 2;
      assert bit == 0 || bit == 1;
      assert bit * bit == bit;
    }
  }

  /** The binary digit of `j` with weight 2^p. */
  function Digit(j: nat, p: nat): (d: nat)
    ensures d < 2
  {
    if p == 0 then j % 2 else Digit(j / 2, p - 1)
  }

  /** `j & bit` with a one-bit mask tests the corresponding binary digit of `j`. */
  lemma {:induction false} AndSingleBit(j: nat, p: nat)
    ensures BitAnd(j, Exp2(p)) != 0 <==> Digit(j, p) == 1
  {
    if j == 0 {
      DigitOfZero(p);
    } else if p == 0 {
      assert Exp2(0) == 1 && BitAnd(j / 2, 0) == 0;
    } else {
      AndSingleBit(j / 2, p - 1);
      assert Exp2(p) / 2 == Exp2(p - 1) && Exp2(p) % 2 == 0;
    }
  }

  lemma {:induction false} DigitOfZero(p: nat)
    ensures Digit(0, p) == 0
  {
    if p == 0 {
    } else {
      DigitOfZero(p - 1);
    }
  }

  /** `j ^= bit` with a one-bit mask clears a set digit and sets a clear one. */
  lemma {:induction false} XorSingleBit(j: nat, p: nat)
    ensures BitXor(j, Exp2(p)) == if Digit(j, p) == 1 then j - Exp2(p) else j + Exp2(p)
  {
    if j == 0 {
      DigitOfZero(p);
    } else if p == 0 {
      assert Exp2(0) == 1 && BitXor(j / 2, 0) == j / 2;
    } else {
      XorSingleBit(j / 2, p - 1);
      assert Exp2(p) / 2 == Exp2(p - 1) && Exp2(p) % 2 == 0;
    }
  }

  /** The `m`-digit reversal of `i`. */
  function Rev(m: nat, i: nat): nat {
    if m == 0 then 0 else (if i % 2 == 1 then Exp2(m - 1) else 0) + Rev(m - 1, i / 2)
  }

  lemma {:induction false} RevBound(m: nat, i: nat)
    ensures Rev(m, i) < Exp2(m)
  {
    if m == 0 {
    } else {
      RevBound(m - 1, i / 2);
    }
  }

  /** Reading the digits from the other end gives the same permutation. */
  lemma {:induction false} RevFromTop(m: nat, low: nat, top: bool)
    requires low < Exp2(m)
    ensures Rev(m + 1, if top then low + Exp2(m) else low) == 2 * Rev(m, low) + (if top then 1 else 0)
  {
    var i := if top then low + Exp2(m) else low;
    if m == 0 {
      assert low == 0 && Exp2(0) == 1;
      assert Rev(0, i / 2) == 0;
    } else {
      assert Exp2(m) == 2 * Exp2(m - 1);
      assert i % 2 == low % 2;
      assert i / 2 == if top then low / 2 + Exp2(m - 1) else low / 2;
      RevFromTop(m - 1, low / 2, top);
    }
  }

  /** Bit reversal is its own inverse, so it permutes the indices below 2^m. */
  lemma {:induction false} RevInvolution(m: nat, i: nat)
    requires i < Exp2(m)
    ensures Rev(m, Rev(m, i)) == i
  {
    if m == 0 {
    } else {
      RevBound(m - 1, i / 2);
      RevInvolution(m - 1, i / 2);
      RevFromTop(m - 1, Rev(m - 1, i / 2), i % 2 == 1);
    }
  }

  lemma {:induction false} DigitFromTop(p: nat, low: nat, top: bool)
    requires low < Exp2(p)
    ensures Digit(if top then low + Exp2(p) else low, p) == if top then 1 else 0
  {
    if p == 0 {
    } else {
      assert Exp2(p) == 2 * Exp2(p - 1);
      DigitFromTop(p - 1, low / 2, top);
    }
  }

  /** The successor in bit-reversed order: carry from the top digit downwards. */
  lemma RevSuccessor(m: nat, i: nat)
    requires m > 0
    ensures i % 2 == 0 ==> Rev(m, i + 1) == Rev(m, i) + Exp2(m - 1)
    ensures i % 2 == 1 ==> Rev(m, i) == Exp2(m - 1) + Rev(m - 1, i / 2) && Rev(m, i + 1) == Rev(m - 1, i / 2 + 1)
    ensures Digit(Rev(m, i), m - 1) == i % 2
  {
    RevBound(m - 1, i / 2);
    DigitFromTop(m - 1, Rev(m - 1, i / 2), i % 2 == 1);
    if i % 2 == 0 {
      assert (i + 1) / 2 == i / 2 && (i + 1) % 2 == 1;
    } else {
      assert (i + 1) / 2 == i / 2 + 1 && (i + 1) % 2 == 0;
    }
  }
}
