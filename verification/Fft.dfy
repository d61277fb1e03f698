/** The in-place radix-2 transform: bit-reversal permutation followed by butterfly stages. */
module Fft {
  import opened Bits
  import opened ComplexNumbers
  import opened Dft
  import opened Wrappers

  const MIN_GRID := 8

  // ----- which samples meet in which block -----

  /** The samples whose transform occupies block `b` when `d` decimations are still to be undone. */
  function Block(x: seq<Complex>, b: nat, d: nat): seq<Complex> {
    if d == 0 then x
    else if b % 2 == 0 then Evens(Block(x, b / 2, d - 1))
    else Odds(Block(x, b / 2, d - 1))
  }

  lemma {:induction false} BlockLength(x: seq<Complex>, b: nat, d: nat, s: nat)
    requires |x| == Exp2(d + s)
    ensures |Block(x, b, d)| == Exp2(s)
  {
    if d == 0 {
    } else {
      BlockLength(x, b / 2, d - 1, s + 1);
    }
  }

  /** The leading digit of the block number is the first decimation. */
  lemma {:induction false} BlockFromTop(x: seq<Complex>, low: nat, top: bool, d: nat)
    requires low < Exp2(d)
    ensures Block(x, if top then low + Exp2(d) else low, d + 1) == Block(if top then Odds(x) else Evens(x), low, d)
  {
    var b := if top then low + Exp2(d) else low;
    if d == 0 {
      assert low == 0 && Exp2(0) == 1 && b / 2 == 0;
      assert Block(x, 0, 0) == x;
    } else {
      assert Exp2(d) == 2 * Exp2(d - 1);
      assert b % 2 == low % 2 && b / 2 == if top then low / 2 + Exp2(d - 1) else low / 2;
      BlockFromTop(x, low / 2, top, d - 1);
    }
  }

  /** After every decimation block `b` is the single sample at the bit-reversed position. */
  lemma {:induction false} BlockIsReversedSample(x: seq<Complex>, b: nat, m: nat)
    requires |x| == Exp2(m) && b < Exp2(m)
    ensures Rev(m, b) < |x| && Block(x, b, m) == [x[Rev(m, b)]]
    decreases m
  {
    hide Block, Rev, Odds, Evens;
    if m == 0 {
      SingleBlock(x, b);
    } else {
      var half := Exp2(m - 1);
      var top := b >= half;
      var low := if top then b - half else b;
      var y := if top then Odds(x) else Evens(x);
      BlockFromTop(x, low, top, m - 1);
      RevFromTop(m - 1, low, top);
      BlockIsReversedSample(y, low, m - 1);
      HalfSample(x, top, Rev(m - 1, low));
    }
  }

  lemma SingleBlock(x: seq<Complex>, b: nat)
    requires |x| == 1
    ensures Rev(0, b) == 0 && Block(x, b, 0) == [x[0]]
  {
  }

  lemma HalfSample(x: seq<Complex>, odd: bool, i: nat)
    requires i < |x| / 2
    ensures (if odd then Odds(x) else Evens(x))[i] == x[2 * i + (if odd then 1 else 0)]
  {
  }

  // ----- positions split into block number and offset -----

  function Shift(p: nat, s: nat): nat {
    if s == 0 then p else Shift(p / 2, s - 1)
  }

  function Low(p: nat, s: nat): nat {
    if s == 0 then 0 else p % 2 + 2 * Low(p / 2, s - 1)
  }

  lemma {:induction false} AlignedOffset(start: nat, s: nat, k: nat)
    requires Low(start, s) == 0 && k < Exp2(s)
    ensures Shift(start + k, s) == Shift(start, s) && Low(start + k, s) == k
    decreases s
  {
    if s == 0 {
    } else {
      assert start % 2 == 0 && Low(start / 2, s - 1) == 0;
      assert (start + k) / 2 == start / 2 + k / 2 && (start + k) % 2 == k % 2;
      AlignedOffset(start / 2, s - 1, k / 2);
    }
  }

  lemma {:induction false} AlignedNext(start: nat, s: nat)
    requires Low(start, s) == 0
    ensures Low(start + Exp2(s), s) == 0 && Shift(start + Exp2(s), s) == Shift(start, s) + 1
  {
    if s == 0 {
    } else {
      assert start % 2 == 0 && Low(start / 2, s - 1) == 0;
      assert (start + Exp2(s)) / 2 == start / 2 + Exp2(s - 1) && (start + Exp2(s)) % 2 == 0;
      AlignedNext(start / 2, s - 1);
    }
  }

  lemma {:induction false} AlignedGap(start: nat, end: nat, s: nat)
    requires Low(start, s) == 0 && Low(end, s) == 0 && start < end
    ensures start + Exp2(s) <= end
  {
    if s == 0 {
    } else {
      AlignedGap(start / 2, end / 2, s - 1);
    }
  }

  lemma {:induction false} AlignedCoarser(start: nat, s: nat)
    requires Low(start, s + 1) == 0
    ensures Low(start, s) == 0 && Shift(start, s) == 2 * Shift(start, s + 1)
  {
    if s == 0 {
      assert start % 2 == 0 && Shift(start / 2, 0) == start / 2;
    } else {
      AlignedCoarser(start / 2, s - 1);
    }
  }

  lemma {:induction false} LowOfPower(m: nat, s: nat)
    requires s <= m
    ensures Low(Exp2(m), s) == 0 && Low(0, s) == 0
  {
    if s == 0 {
    } else {
      assert Exp2(m) / 2 == Exp2(m - 1) && Exp2(m) % 2 == 0;
      LowOfPower(m - 1, s - 1);
    }
  }

  lemma {:induction false} ShiftOfZero(s: nat)
    ensures Shift(0, s) == 0
  {
    if s == 0 {
    } else {
      ShiftOfZero(s - 1);
    }
  }

  // ----- what the buffer holds between stages -----

  /** Content of position `p` once blocks of length 2^s hold finished sub-transforms. */
  function StageValue(x: seq<Complex>, m: nat, s: nat, w: nat -> Complex, p: nat): Complex
    requires s <= m
  {
    Eval(Block(x, Shift(p, s), m - s), Pow(w(s), Low(p, s)))
  }

  lemma FirstStage(x: seq<Complex>, m: nat, w: nat -> Complex, p: nat)
    requires |x| == Exp2(m) && p < Exp2(m)
    ensures Rev(m, p) < |x| && StageValue(x, m, 0, w, p) == x[Rev(m, p)]
  {
    BlockIsReversedSample(x, p, m);
    var c := x[Rev(m, p)];
    assert Eval([c], One) == Add(c, Mul(One, Eval([], One)));
    MulZero(One);
  }

  lemma LastStage(x: seq<Complex>, m: nat, w: nat -> Complex, p: nat)
    requires |x| == Exp2(m) && p < Exp2(m)
    ensures StageValue(x, m, m, w, p) == Eval(x, Pow(w(m), p))
  {
    LowOfPower(m, m);
    AlignedOffset(0, m, p);
    ShiftOfZero(m);
  }

  lemma BlockHalves(x: seq<Complex>, b: nat, d: nat)
    ensures Block(x, 2 * b, d + 1) == Evens(Block(x, b, d))
    ensures Block(x, 2 * b + 1, d + 1) == Odds(Block(x, b, d))
  {
    hide Evens, Odds;
    var even, odd := 2 * b, 2 * b + 1;
    assert even / 2 == b && odd / 2 == b && even % 2 == 0 && odd % 2 == 1;
  }

  /** Where the two inputs and the two outputs of a butterfly sit, in terms of the combined block. */
  lemma ButterflyPositions(x: seq<Complex>, m: nat, s: nat, w: nat -> Complex, start: nat, k: nat)
    requires |x| == Exp2(m) && s < m
    requires Low(start, s + 1) == 0 && k < Exp2(s)
    ensures var block := Block(x, Shift(start, s + 1), m - s - 1);
            && |block| == Exp2(s + 1)
            && StageValue(x, m, s, w, start + k) == Eval(Evens(block), Pow(w(s), k))
            && StageValue(x, m, s, w, start + k + Exp2(s)) == Eval(Odds(block), Pow(w(s), k))
            && StageValue(x, m, s + 1, w, start + k) == Eval(block, Pow(w(s + 1), k))
            && StageValue(x, m, s + 1, w, start + k + Exp2(s)) == Eval(block, Pow(w(s + 1), k + Exp2(s)))
  {
    hide Mul, Add, Sub, Eval, Pow, Evens, Odds, Shift, Low, Block;
    var half := Exp2(s);
    var b := Shift(start, s + 1);
    BlockLength(x, b, m - s - 1, s + 1);
    AlignedCoarser(start, s);
    AlignedOffset(start, s, k);
    AlignedNext(start, s);
    AlignedOffset(start + half, s, k);
    AlignedOffset(start, s + 1, k);
    AlignedOffset(start, s + 1, k + half);
    assert start + half + k == start + k + half == start + (k + half);
    BlockHalves(x, b, m - s - 1);
  }

  /** One butterfly turns the two half-length transforms into two entries of the full-length one. */
  lemma Butterfly(x: seq<Complex>, m: nat, s: nat, w: nat -> Complex, start: nat, k: nat)
    requires |x| == Exp2(m) && s < m && RootTower(w)
    requires Low(start, s + 1) == 0 && k < Exp2(s)
    ensures var even := StageValue(x, m, s, w, start + k);
            var odd := Mul(StageValue(x, m, s, w, start + k + Exp2(s)), Pow(w(s + 1), k));
            && StageValue(x, m, s + 1, w, start + k) == Add(even, odd)
            && StageValue(x, m, s + 1, w, start + k + Exp2(s)) == Sub(even, odd)
  {
    hide Mul, Add, Sub, Eval, Pow, RootTower, StageValue, Shift, Low, Block, Evens, Odds, Exp2;
    ButterflyPositions(x, m, s, w, start, k);
    EvenLength(s);
    SplitAtRoots(Block(x, Shift(start, s + 1), m - s - 1), s, w, k);
  }

  lemma EvenLength(s: nat)
    ensures Exp2(s + 1) % 2 == 0
  {
  }

  /** The radix-2 split evaluated at a root and at the opposite root. */
  lemma SplitAtRoots(block: seq<Complex>, s: nat, w: nat -> Complex, k: nat)
    requires |block| % 2 == 0 && RootTower(w)
    ensures var z := Pow(w(s + 1), k);
            var even := Eval(Evens(block), Pow(w(s), k));
            var odd := Mul(Eval(Odds(block), Pow(w(s), k)), z);
            && Eval(block, z) == Add(even, odd)
            && Eval(block, Pow(w(s + 1), k + Exp2(s))) == Sub(even, odd)
  {
    hide Mul, Add, Sub, Eval, Pow, RootTower, Evens, Odds, Exp2;
    var z := Pow(w(s + 1), k);
    SquareOfRootPower(w, s, k);
    EvalSplit(block, z);
    var e, o := Eval(Evens(block), Pow(w(s), k)), Eval(Odds(block), Pow(w(s), k));
    MulComm(z, o);
    PowAdd(w(s + 1), k, Exp2(s));
    HalfTurn(w, s);
    NegatedRoot(z, o, e);
    EvalSplit(block, Mul(z, MinusOne));
  }

  lemma NegatedRoot(z: Complex, o: Complex, e: Complex)
    ensures var z' := Mul(z, MinusOne);
            Mul(z', z') == Mul(z, z) && Add(e, Mul(z', o)) == Sub(e, Mul(o, z))
  {
    MulComm(z, MinusOne);
    MulMinusOne(z);
    assert Mul(Complex(-z.re, -z.im), o) == Complex(-Mul(o, z).re, -Mul(o, z).im);
  }

  // ----- the method -----

  /** `j` runs through the bit reversals: one carry from the top digit downwards. */
  method NextReversed(j0: nat, n: nat, ghost m: nat, ghost i: nat) returns (j: nat)
    requires n == Exp2(m) && j0 == Rev(m, i) && i + 1 < n
    ensures j == Rev(m, i + 1)
  {
    j := j0;
    var bit := n / 2;
    ghost var p: nat, low: nat := m, i;
    while BitAnd(j, bit) != 0
      invariant 1 <= p <= m && bit == Exp2(p - 1)
      invariant j == Rev(p, low) && low + 1 < Exp2(p) && Rev(p, low + 1) == Rev(m, i + 1)
      decreases p
    {
      AndSingleBit(j, p - 1);
      RevSuccessor(p, low);
      XorSingleBit(j, p - 1);
      j := BitXor(j, bit);
      bit := bit / 2;
      p, low := p - 1, low / 2;
    }
    AndSingleBit(j, p - 1);
    RevSuccessor(p, low);
    XorSingleBit(j, p - 1);
    j := BitXor(j, bit);
  }

  method BitReverse(data: array<Complex>, ghost m: nat)
    requires data.Length == Exp2(m)
    modifies data
    ensures forall k: nat | k < data.Length :: Rev(m, k) < data.Length && data[k] == old(data[..])[Rev(m, k)]
  {
    hide Rev;
    ghost var x := data[..];
    var n := data.Length;
    forall k: nat | k < n ensures Rev(m, k) < n && Rev(m, Rev(m, k)) == k {
      RevBound(m, k);
      RevInvolution(m, k);
    }
    RevOfZero(m);
    var j: nat, i: nat := 0, 1;
    while i < n
      invariant 1 <= i <= n && j == Rev(m, i - 1)
      invariant forall k: nat | k < n :: data[k] == if k < i || Rev(m, k) < i then x[Rev(m, k)] else x[k]
    {
      j := NextReversed(j, n, m, i - 1);
      if i < j {
        data[i], data[j] := data[j], data[i];
      }
      i := i + 1;
    }
  }

  lemma {:induction false} RevOfZero(m: nat)
    ensures Rev(m, 0) == 0
  {
    if m == 0 {
    } else {
      RevOfZero(m - 1);
    }
  }

  /** One stage: every block of length 2^(s+1) is combined from its two halves. */
  method Stage(data: array<Complex>, length: nat, root: Complex,
               ghost x: seq<Complex>, ghost m: nat, ghost s: nat, ghost w: nat -> Complex)
    requires s < m && data.Length == |x| == Exp2(m) && length == Exp2(s + 1)
    requires RootTower(w) && root == w(s + 1)
    requires forall p: nat | p < data.Length :: data[p] == StageValue(x, m, s, w, p)
    modifies data
    ensures forall p: nat | p < data.Length :: data[p] == StageValue(x, m, s + 1, w, p)
  {
    hide Mul, Add, Sub, RootTower, StageValue;
    var n := data.Length;
    var half := length / 2;
    var start := 0;
    LowOfPower(m, s + 1);
    while start < n
      invariant start <= n && Low(start, s + 1) == 0
      invariant forall p: nat | p < start :: data[p] == StageValue(x, m, s + 1, w, p)
      invariant forall p: nat | start <= p < n :: data[p] == StageValue(x, m, s, w, p)
    {
      AlignedGap(start, n, s + 1);
      var weight := One;
      for index := start to start + half
        invariant weight == Pow(root, index - start)
        invariant forall p: nat | p < index || start + half <= p < index + half ::
                  data[p] == StageValue(x, m, s + 1, w, p)
        invariant forall p: nat | index <= p < start + half || index + half <= p < n ::
                  data[p] == StageValue(x, m, s, w, p)
      {
        Butterfly(x, m, s, w, start, index - start);
        var even := data[index];
        var odd := Mul(data[index + half], weight);
        data[index] := Add(even, odd);
        data[index + half] := Sub(even, odd);
        MulComm(weight, root);
        weight := Mul(weight, root);
      }
      AlignedNext(start, s + 1);
      start := start + length;
    }
  }

  /** Whether the source accepts a transform length. */
  predicate Radix2(n: nat) {
    n >= MIN_GRID && BitAnd(n, n - 1) == 0
  }

  method DivideAll(data: array<Complex>, n: nat)
    requires n == data.Length
    modifies data
    ensures forall p: nat | p < n :: data[p] == Scale(1.0 / (n as real), old(data[p]))
  {
    for index := 0 to n
      invariant forall p: nat | p < index :: data[p] == Scale(1.0 / (n as real), old(data[p]))
      invariant forall p: nat | index <= p < n :: data[p] == old(data[p])
    {
      data[index] := Scale(1.0 / (n as real), data[index]);
    }
  }

  /** The outer loop: block lengths 2, 4, ..., n. */
  method RunStages(data: array<Complex>, ghost values: seq<Complex>, ghost m: nat, w: nat -> Complex)
    requires data.Length == |values| == Exp2(m) && RootTower(w)
    requires forall p: nat | p < data.Length :: data[p] == StageValue(values, m, 0, w, p)
    modifies data
    ensures forall p: nat | p < data.Length :: data[p] == StageValue(values, m, m, w, p)
  {
    hide StageValue, RootTower;
    var n := data.Length;
    var length: nat, s: nat := 2, 0;
    while length <= n
      invariant s <= m && length == Exp2(s + 1)
      invariant forall p: nat | p < n :: data[p] == StageValue(values, m, s, w, p)
      decreases m - s
    {
      ExpMonotone(s + 1, m);
      Stage(data, length, w(s + 1), values, m, s, w);
      length := length * 2;
      s := s + 1;
    }
    ExpMonotone(s + 1, m);
  }

  /** In-place bit reversal and butterflies compute exactly the defining Fourier sums. */
  method Fft1d(values: seq<Complex>, t: Trig, inverse: bool) returns (r: Result<seq<Complex>, string>)
    requires HalfAngles(t)
    ensures r.Success? <==> |values| >= 8 && IsPowerOfTwo(|values|)
    ensures r.Success? ==> r.value == Transform(values, t, inverse)
  {
    hide Mul, Add, Sub, Scale, StageValue, Transform, RootTower, HalfAngles, Rev, Root;
    var n := |values|;
    if n >= 1 { AndPredecessorIsPowerOfTwoTest(n); }
    if !Radix2(n) {
      return Failure("G3 requires radix-2 grid_size >= 8");
    }
    ghost var m: nat :| n == Exp2(m);
    Log2OfExp2(m);
    var w := Root(t, inverse);
    RootsFormTowers(t, inverse);
    var data := new Complex[n](i requires 0 <= i < n => values[i]);
    assert data[..] == values;
    BitReverse(data, m);
    forall p: nat | p < n ensures data[p] == StageValue(values, m, 0, w, p) {
      FirstStage(values, m, w, p);
    }
    RunStages(data, values, m, w);
    if inverse {
      DivideAll(data, n);
    }
    forall p: nat | p < n ensures data[p] == Transform(values, t, inverse)[p] {
      LastStage(values, m, w, p);
      TransformIsEval(values, t, inverse, p);
      ScaleOne(Eval(values, Pow(w(m), p)));
    }
    assert data[..] == Transform(values, t, inverse);
    r := Success(data[..]);
  }

  lemma ScaleOne(a: Complex)
    ensures Scale(1.0, a) == a
  {
  }

  lemma {:induction false} ExpMonotone(a: nat, b: nat)
    ensures a <= b <==> Exp2(a) <= Exp2(b)
  {
    if a == 0 || b == 0 {
    } else {
      ExpMonotone(a - 1, b - 1);
    }
  }
}
