/** The beam search over expressions: every round keeps the best candidates found so far. */
module Discovery {
  import opened Expressions
  import opened RealArith
  import opened Sorting
  import opened Text
  import opened Wrappers

  datatype Sample = Sample(x: real, target: real)

  // ----- ranking -----

  function TotalError(e: Expr, data: seq<Sample>): real {
    if data == [] then 0.0 else
      var last := data[|data| - 1];
      TotalError(e, data[..|data| - 1]) + Sq(Evaluate(e, last.x) - last.target)
  }

  function Mse(e: Expr, data: seq<Sample>): real {
    TotalError(e, data) / (if |data| > 1 then |data| else 1) as real
  }

  /** By error, then complexity, then key. */
  predicate RankLess(data: seq<Sample>, a: Expr, b: Expr) {
    || Mse(a, data) < Mse(b, data)
    || (Mse(a, data) == Mse(b, data)
        && (Complexity(a) < Complexity(b)
            || (Complexity(a) == Complexity(b) && Less(Canonical(a), Canonical(b)))))
  }

  function RankOrder(data: seq<Sample>): (Expr, Expr) -> bool {
    (a: Expr, b: Expr) => RankLess(data, a, b)
  }

  lemma NotLessTransitive(a: string, b: string, c: string)
    requires !Less(b, a) && !Less(c, b)
    ensures !Less(c, a)
  {
    hide Less;
    LessTotal(a, b);
    LessTotal(b, c);
    if Less(c, a) && Less(a, b) {
      LessTransitive(c, a, b);
    }
  }

  lemma LessAsymmetric(a: string, b: string)
    requires Less(a, b)
    ensures !Less(b, a)
  {
    hide Less;
    LessIrreflexive(a);
    if Less(b, a) {
      LessTransitive(a, b, a);
    }
  }

  lemma RankIsWeakOrder(data: seq<Sample>)
    ensures WeakOrder(RankOrder(data))
  {
    hide Mse, Complexity, Canonical, Less;
    forall a, b | RankLess(data, a, b) ensures !RankLess(data, b, a) {
      if Less(Canonical(a), Canonical(b)) {
        LessAsymmetric(Canonical(a), Canonical(b));
      }
    }
    forall a, b, c | !RankLess(data, b, a) && !RankLess(data, c, b) ensures !RankLess(data, c, a) {
      if !Less(Canonical(b), Canonical(a)) && !Less(Canonical(c), Canonical(b)) {
        NotLessTransitive(Canonical(a), Canonical(b), Canonical(c));
      }
    }
  }

  lemma {:induction false} SameKeySameTotal(e: Expr, f: Expr, data: seq<Sample>)
    requires Canonical(e) == Canonical(f)
    ensures TotalError(e, data) == TotalError(f, data)
    decreases |data|
  {
    hide Canonical, Evaluate;
    if data == [] {
    } else {
      SameKeySameTotal(e, f, data[..|data| - 1]);
      KeySound(e, f, data[|data| - 1].x);
    }
  }

  lemma SameKeySameMse(e: Expr, f: Expr, data: seq<Sample>)
    requires Canonical(e) == Canonical(f)
    ensures Mse(e, data) == Mse(f, data)
  {
    hide Canonical, TotalError;
    SameKeySameTotal(e, f, data);
  }

  /** Because the key determines value and complexity, it determines the rank. */
  lemma SameKeySameRank(data: seq<Sample>, e: Expr, f: Expr, z: Expr)
    requires Canonical(e) == Canonical(f)
    ensures RankLess(data, e, z) == RankLess(data, f, z)
  {
    hide Canonical, Mse, Complexity, Less, Evaluate;
    SameKeySameMse(e, f, data);
    KeySound(e, f, 0.0);
  }

  // ----- dictionaries from key to expression, in insertion order -----

  function Put(d: seq<Expr>, e: Expr): seq<Expr> {
    if d == [] then [e]
    else if Canonical(d[0]) == Canonical(e) then [e] + d[1..]
    else [d[0]] + Put(d[1..], e)
  }

  function PutAll(d: seq<Expr>, es: seq<Expr>): seq<Expr> {
    if es == [] then d else Put(PutAll(d, es[..|es| - 1]), es[|es| - 1])
  }

  function Keys(d: seq<Expr>): set<string> {
    set i | 0 <= i < |d| :: Canonical(d[i])
  }

  ghost predicate Keyed(d: seq<Expr>) {
    forall i, j :: 0 <= i < j < |d| ==> Canonical(d[i]) != Canonical(d[j])
  }

  lemma KeysOfConcat(a: seq<Expr>, b: seq<Expr>)
    ensures Keys(a + b) == Keys(a) + Keys(b)
  {
    hide Canonical;
    forall k | k in Keys(a) + Keys(b) ensures k in Keys(a + b) {
      if k in Keys(a) {
        var i :| 0 <= i < |a| && Canonical(a[i]) == k;
        assert (a + b)[i] == a[i];
      } else {
        var i :| 0 <= i < |b| && Canonical(b[i]) == k;
        assert (a + b)[|a| + i] == b[i];
      }
    }
  }

  lemma KeyOfOne(e: Expr)
    ensures Keys([e]) == {Canonical(e)}
  {
    assert [e][0] == e;
  }

  lemma {:induction false} PutKeys(d: seq<Expr>, e: Expr)
    ensures Keys(Put(d, e)) == Keys(d) + {Canonical(e)}
    ensures Keyed(d) ==> Keyed(Put(d, e))
    decreases |d|
  {
    hide Canonical;
    KeyOfOne(e);
    if d == [] {
    } else {
      KeyOfOne(d[0]);
      KeysOfConcat([d[0]], d[1..]);
      KeysOfConcat([e], d[1..]);
      KeysOfConcat([d[0]], Put(d[1..], e));
      assert d == [d[0]] + d[1..];
      PutKeys(d[1..], e);
      if Keyed(d) && Canonical(d[0]) != Canonical(e) {
        ConsKeyed(d[0], Put(d[1..], e), d[1..], e);
      }
    }
  }

  lemma ConsKeyed(first: Expr, rest: seq<Expr>, was: seq<Expr>, e: Expr)
    requires Keyed(rest) && Keys(rest) == Keys(was) + {Canonical(e)} && Canonical(first) != Canonical(e)
    requires forall i :: 0 <= i < |was| ==> Canonical(first) != Canonical(was[i])
    ensures Keyed([first] + rest)
  {
    hide Canonical;
    forall j | 0 <= j < |rest| ensures Canonical(first) != Canonical(rest[j]) {
      assert Canonical(rest[j]) in Keys(rest);
    }
  }

  lemma {:induction false} PutAllKeys(d: seq<Expr>, es: seq<Expr>)
    ensures Keys(PutAll(d, es)) == Keys(d) + Keys(es)
    ensures Keyed(d) ==> Keyed(PutAll(d, es))
    decreases |es|
  {
    hide Canonical, Put, Keyed;
    if es == [] {
    } else {
      var init, last := es[..|es| - 1], es[|es| - 1];
      PutAllKeys(d, init);
      PutKeys(PutAll(d, init), last);
      KeysOfConcat(init, [last]);
      KeyOfOne(last);
      assert es == init + [last];
    }
  }

  lemma {:induction false} PutAllAppend(d: seq<Expr>, a: seq<Expr>, b: seq<Expr>)
    ensures PutAll(d, a + b) == PutAll(PutAll(d, a), b)
    decreases |b|
  {
    hide Put;
    if b == [] {
      assert a + b == a;
    } else {
      PutAllAppend(d, a, b[..|b| - 1]);
      assert (a + b)[..|a + b| - 1] == a + b[..|b| - 1];
    }
  }

  // ----- one round -----

  function Squares(es: seq<Expr>): (r: seq<Expr>)
    ensures |r| == |es|
  {
    seq(|es|, (i: nat) requires i < |es| => Square(es[i]))
  }

  function Row(left: Expr, base: seq<Expr>): seq<Expr> {
    if base == [] then [] else
      var right := base[|base| - 1];
      Row(left, base[..|base| - 1]) + [Add(left, right), Sub(left, right), Mul(left, right)]
  }

  function Combos(frontier: seq<Expr>, base: seq<Expr>): seq<Expr> {
    if frontier == [] then [] else
      Combos(frontier[..|frontier| - 1], base) + Row(frontier[|frontier| - 1], base)
  }

  function Candidates(pool: seq<Expr>): seq<Expr> {
    PutAll(PutAll(pool, Squares(pool)), Combos(pool, pool))
  }

  /** The source language's prefix slice: a negative width drops from the end. */
  function Prefix(xs: seq<Expr>, width: int): seq<Expr> {
    var n := if width < 0 then |xs| + width else width;
    if n <= 0 then [] else if n >= |xs| then xs else xs[..n]
  }

  function Round(data: seq<Sample>, pool: seq<Expr>, width: int): seq<Expr> {
    Prefix(Sort(RankOrder(data), Candidates(pool)), width)
  }

  function Search(data: seq<Sample>, start: seq<Expr>, depth: nat, width: int): seq<Expr> {
    if depth == 0 then start else Round(data, Search(data, start, depth - 1, width), width)
  }

  /** All keys that were ever candidates. */
  function Evaluated(data: seq<Sample>, start: seq<Expr>, depth: nat, width: int): set<string> {
    if depth == 0 then Keys(start) else
      Evaluated(data, start, depth - 1, width) + Keys(Candidates(Search(data, start, depth - 1, width)))
  }

  function Constants(cs: seq<int>): (r: seq<Expr>)
    ensures |r| == |cs|
  {
    seq(|cs|, (i: nat) requires i < |cs| => Const(cs[i]))
  }

  function Terminals(cs: seq<int>): seq<Expr> {
    PutAll([], [X] + Constants(cs))
  }

  function Best(data: seq<Sample>, pool: seq<Expr>): Option<Expr> {
    var ranked := Sort(RankOrder(data), pool);
    if ranked == [] then None else Some(ranked[0])
  }

  lemma BestIsLeast(data: seq<Sample>, pool: seq<Expr>, e: Expr)
    requires e in pool
    ensures Best(data, pool).Some? && Best(data, pool).value in pool
    ensures !RankLess(data, e, Best(data, pool).value)
  {
    hide RankLess;
    RankIsWeakOrder(data);
    var ranked := Sort(RankOrder(data), pool);
    SortSorts(RankOrder(data), pool);
    var i :| 0 <= i < |ranked| && ranked[i] == e;
    assert i > 0 ==> !RankOrder(data)(ranked[i], ranked[0]);
    NotBeforeSelf(data, e);
  }

  lemma NotBeforeSelf(data: seq<Sample>, e: Expr)
    ensures !RankLess(data, e, e)
  {
    LessIrreflexive(Canonical(e));
  }

  /** With a beam of at least one, no candidate of the round ranks before the best expression kept. */
  lemma RoundKeepsBest(data: seq<Sample>, pool: seq<Expr>, width: int, c: Expr)
    requires width >= 1 && Canonical(c) in Keys(Candidates(pool))
    ensures Best(data, Round(data, pool, width)).Some?
    ensures !RankLess(data, c, Best(data, Round(data, pool, width)).value)
  {
    hide RankLess, Canonical, Candidates, Evaluate;
    var candidates := Candidates(pool);
    var i :| 0 <= i < |candidates| && Canonical(candidates[i]) == Canonical(c);
    var ranked, kept := Sort(RankOrder(data), candidates), Round(data, pool, width);
    RankIsWeakOrder(data);
    SortSorts(RankOrder(data), candidates);
    BestIsLeast(data, candidates, candidates[i]);
    assert kept != [] && kept[0] == ranked[0];
    BestIsLeast(data, kept, kept[0]);
    var best := Best(data, kept).value;
    assert !RankOrder(data)(ranked[0], best) && !RankOrder(data)(candidates[i], ranked[0]);
    assert !RankOrder(data)(candidates[i], best);
    SameKeySameRank(data, c, candidates[i], best);
  }

  /** A smaller error comes first, then a smaller complexity, and two different keys are never tied. */
  lemma RankDecides(data: seq<Sample>, a: Expr, b: Expr)
    ensures Mse(a, data) < Mse(b, data) ==> RankLess(data, a, b)
    ensures Mse(a, data) == Mse(b, data) && Complexity(a) < Complexity(b) ==> RankLess(data, a, b)
    ensures Canonical(a) != Canonical(b) ==> RankLess(data, a, b) || RankLess(data, b, a)
  {
    hide Mse, Complexity, Canonical, Less;
    LessTotal(Canonical(a), Canonical(b));
  }

  /** What a round keeps does not depend on the order in which the candidates were entered. */
  lemma BeamIgnoresOrder(data: seq<Sample>, a: seq<Expr>, b: seq<Expr>, width: int)
    requires Keyed(a) && multiset(a) == multiset(b)
    ensures Prefix(Sort(RankOrder(data), a), width) == Prefix(Sort(RankOrder(data), b), width)
  {
    hide Canonical, RankLess, Sort, Prefix;
    RankIsWeakOrder(data);
    SortSorts(RankOrder(data), a);
    SortSorts(RankOrder(data), b);
    var s := Sort(RankOrder(data), a);
    forall x, y | x in s && y in s && x != y ensures RankOrder(data)(x, y) || RankOrder(data)(y, x) {
      assert x in a && y in a;
      RankDecides(data, x, y);
    }
    SortedListUnique(RankOrder(data), s, Sort(RankOrder(data), b));
  }

  // ----- what the search guarantees -----

  lemma PoolKeys(pool: seq<Expr>)
    ensures Keys(Candidates(pool)) == Keys(pool) + Keys(Squares(pool)) + Keys(Combos(pool, pool))
  {
    PutAllKeys(pool, Squares(pool));
    PutAllKeys(PutAll(pool, Squares(pool)), Combos(pool, pool));
  }

  lemma KeyIn(d: seq<Expr>, e: Expr)
    requires e in d
    ensures Canonical(e) in Keys(d)
  {
    hide Canonical;
    var i :| 0 <= i < |d| && d[i] == e;
    assert Canonical(d[i]) in Keys(d);
  }

  lemma {:induction false} RowMembers(left: Expr, base: seq<Expr>, right: Expr)
    requires right in base
    ensures Add(left, right) in Row(left, base) && Sub(left, right) in Row(left, base)
    ensures Mul(left, right) in Row(left, base)
    decreases |base|
  {
    var init, last := base[..|base| - 1], base[|base| - 1];
    assert base == init + [last];
    if right == last {
    } else {
      RowMembers(left, init, right);
    }
  }

  lemma {:induction false} ComboMembers(frontier: seq<Expr>, base: seq<Expr>, left: Expr, right: Expr)
    requires left in frontier && right in base
    ensures Add(left, right) in Combos(frontier, base) && Sub(left, right) in Combos(frontier, base)
    ensures Mul(left, right) in Combos(frontier, base)
    decreases |frontier|
  {
    var init, last := frontier[..|frontier| - 1], frontier[|frontier| - 1];
    assert frontier == init + [last];
    if left == last {
      RowMembers(left, base, right);
    } else {
      ComboMembers(init, base, left, right);
    }
  }

  /** The best expression of the next round ranks no later than any kept expression and any one-step combination
      of kept expressions; in particular its error is no larger. */
  lemma NextRoundImproves(data: seq<Sample>, pool: seq<Expr>, width: int, l: Expr, r: Expr)
    requires width >= 1 && l in pool && r in pool
    ensures Best(data, Round(data, pool, width)).Some?
    ensures var best := Best(data, Round(data, pool, width)).value;
            && !RankLess(data, l, best) && !RankLess(data, Square(l), best) && !RankLess(data, Add(l, r), best)
            && !RankLess(data, Sub(l, r), best) && !RankLess(data, Mul(l, r), best)
            && Mse(best, data) <= Mse(l, data)
  {
    hide Candidates, Round, Canonical, Combos, Mse;
    PoolKeys(pool);
    KeyIn(pool, l);
    var i :| 0 <= i < |pool| && pool[i] == l;
    assert Squares(pool)[i] == Square(l);
    KeyIn(Squares(pool), Square(l));
    ComboMembers(pool, pool, l, r);
    KeyIn(Combos(pool, pool), Add(l, r));
    KeyIn(Combos(pool, pool), Sub(l, r));
    KeyIn(Combos(pool, pool), Mul(l, r));
    RoundKeepsBest(data, pool, width, l);
    RoundKeepsBest(data, pool, width, Square(l));
    RoundKeepsBest(data, pool, width, Add(l, r));
    RoundKeepsBest(data, pool, width, Sub(l, r));
    RoundKeepsBest(data, pool, width, Mul(l, r));
  }

  lemma {:induction false} SearchNonEmpty(data: seq<Sample>, start: seq<Expr>, depth: nat, width: int)
    requires width >= 1 && start != []
    ensures Best(data, Search(data, start, depth, width)).Some? && Search(data, start, depth, width) != []
    decreases depth
  {
    hide Round, Mse;
    if depth == 0 {
      BestIsLeast(data, start, start[0]);
    } else {
      var pool := Search(data, start, depth - 1, width);
      SearchNonEmpty(data, start, depth - 1, width);
      NextRoundImproves(data, pool, width, pool[0], pool[0]);
      assert Best(data, []) == None;
    }
  }

  /** Searching deeper never gives a larger error. */
  lemma {:induction false} DeeperIsNoWorse(data: seq<Sample>, start: seq<Expr>, d: nat, e: nat, width: int)
    requires width >= 1 && start != [] && d <= e
    ensures Best(data, Search(data, start, d, width)).Some? && Best(data, Search(data, start, e, width)).Some?
    ensures Mse(Best(data, Search(data, start, e, width)).value, data) <=
            Mse(Best(data, Search(data, start, d, width)).value, data)
    decreases e
  {
    hide Round, Mse, Best;
    SearchNonEmpty(data, start, d, width);
    SearchNonEmpty(data, start, e, width);
    if d == e {
    } else {
      DeeperIsNoWorse(data, start, d, e - 1, width);
      var pool := Search(data, start, e - 1, width);
      SearchNonEmpty(data, start, e - 1, width);
      BestIsLeast(data, pool, pool[0]);
      var best := Best(data, pool).value;
      NextRoundImproves(data, pool, width, best, best);
    }
  }

  /** For every sample set, depth and beam of at least one, the result beats x and every constant. */
  lemma ResultBeatsTerminals(data: seq<Sample>, cs: seq<int>, depth: nat, width: int, t: Expr)
    requires width >= 1 && t in [X] + Constants(cs)
    ensures Best(data, Search(data, Terminals(cs), depth, width)).Some?
    ensures Mse(Best(data, Search(data, Terminals(cs), depth, width)).value, data) <= Mse(t, data)
  {
    hide Mse, Canonical, Best, Search;
    var start := Terminals(cs);
    PutAllKeys([], [X] + Constants(cs));
    KeyIn([X] + Constants(cs), t);
    var i :| 0 <= i < |start| && Canonical(start[i]) == Canonical(t);
    SearchNonEmpty(data, start, depth, width);
    DeeperIsNoWorse(data, start, 0, depth, width);
    SearchZero(data, start, width);
    BestIsLeast(data, start, start[i]);
    SameKeySameMse(start[i], t, data);
  }

  lemma SearchZero(data: seq<Sample>, start: seq<Expr>, width: int)
    ensures Search(data, start, 0, width) == start
  {
  }

  // ----- the search -----

  datatype Found = Found(expression: Expr, mse: real, baseline: real, improvement: real, evaluated: nat)

  datatype SearchError = NoSamples | EmptyPool

  const ERROR_FLOOR := 0.000000000001

  function Improvement(baseline: real, best: real): real {
    if baseline == 0.0 then (if best == 0.0 then 1.0 else 0.0)
    else baseline / (if best > ERROR_FLOOR then best else ERROR_FLOOR)
  }

  /** The reported ratio is at least one unless the baseline was already below the floor without being exact. */
  lemma ImprovementAtLeastOneIff(baseline: real, best: real)
    requires 0.0 <= best <= baseline
    ensures Improvement(baseline, best) >= 1.0 <==> baseline == 0.0 || baseline >= ERROR_FLOOR
  {
    if baseline != 0.0 {
      RatioAtLeastOne(baseline, if best > ERROR_FLOOR then best else ERROR_FLOOR);
    }
  }

  lemma RatioAtLeastOne(a: real, b: real)
    requires b > 0.0
    ensures a / b >= 1.0 <==> a >= b
  {
    var q := a / b;
    assert Product(q, b) == a;
    assert Product(q - 1.0, b) == a - b;
    if q >= 1.0 {
      if q > 1.0 { ProductOfPositives(q - 1.0, b); }
    } else {
      ProductOfPositives(1.0 - q, b);
      assert Product(1.0 - q, b) == -Product(q - 1.0, b);
    }
  }

  lemma {:induction false} TotalErrorNonNegative(e: Expr, data: seq<Sample>)
    ensures TotalError(e, data) >= 0.0
    decreases |data|
  {
    hide Evaluate;
    if data == [] {
    } else {
      TotalErrorNonNegative(e, data[..|data| - 1]);
      SquareNonNegative(Evaluate(e, data[|data| - 1].x) - data[|data| - 1].target);
    }
  }

  lemma MseNonNegative(e: Expr, data: seq<Sample>)
    ensures Mse(e, data) >= 0.0
  {
    hide TotalError;
    TotalErrorNonNegative(e, data);
    if TotalError(e, data) > 0.0 {
      PositiveQuotient(TotalError(e, data), (if |data| > 1 then |data| else 1) as real);
    }
  }

  /** The search's own ratio is at least one exactly when x fits exactly or its error is not below the floor. */
  lemma SearchImprovesIff(samples: seq<Sample>, constants: seq<int>, depth: nat, width: int)
    requires width >= 1
    ensures var best := Best(samples, Search(samples, Terminals(constants), depth, width));
            && best.Some?
            && (Improvement(Mse(X, samples), Mse(best.value, samples)) >= 1.0 <==>
                  Mse(X, samples) == 0.0 || Mse(X, samples) >= 0.000000000001)
  {
    hide Mse, Best, Search, Terminals, Improvement;
    assert X in [X] + Constants(constants);
    ResultBeatsTerminals(samples, constants, depth, width, X);
    var best := Best(samples, Search(samples, Terminals(constants), depth, width)).value;
    MseNonNegative(best, samples);
    ImprovementAtLeastOneIff(Mse(X, samples), Mse(best, samples));
  }

  /** One sample that x misses by 1e-7: whatever the search finds, it reports a ratio below one. */
  lemma TinyBaselineLosesRatio(constants: seq<int>, depth: nat, width: int)
    requires width >= 1
    ensures var samples := [Sample(0.0, 0.0000001)];
            var best := Best(samples, Search(samples, Terminals(constants), depth, width));
            best.Some? && Improvement(Mse(X, samples), Mse(best.value, samples)) < 1.0
  {
    var samples := [Sample(0.0, 0.0000001)];
    assert samples[..0] == [] && TotalError(X, samples[..0]) == 0.0;
    assert TotalError(X, samples) == Sq(0.0 - 0.0000001);
    assert Sq(0.0 - 0.0000001) == 0.00000000000001;
    assert Mse(X, samples) == 0.00000000000001;
    hide Mse, Best, Search, Terminals, Improvement;
    SearchImprovesIff(samples, constants, depth, width);
  }

  method DiscoverExpression(samples: seq<Sample>, constants: seq<int>, maxDepth: int, width: int)
    returns (r: Result<Found, SearchError>)
    ensures var depth: nat := if maxDepth < 0 then 0 else maxDepth;
            var best := Best(samples, Search(samples, Terminals(constants), depth, width));
            if samples == [] then r == Failure(NoSamples)
            else if best.None? then r == Failure(EmptyPool)
            else r == Success(Found(best.value, Mse(best.value, samples), Mse(X, samples),
                                    Improvement(Mse(X, samples), Mse(best.value, samples)),
                                    |Evaluated(samples, Terminals(constants), depth, width)|))
    ensures samples != [] && width >= 1 ==>
              && r.Success? && r.value.mse <= r.value.baseline
              && (r.value.improvement >= 1.0 <==> r.value.baseline == 0.0 || r.value.baseline >= 0.000000000001)
  {
    hide Mse, Candidates, Best, Terminals, Keys, Sort, Improvement, RankOrder;
    if samples == [] {
      return Failure(NoSamples);
    }
    var start := ReadTerminals(constants);
    var pool, evaluated := start, Keys(start);
    var depth: nat := if maxDepth < 0 then 0 else maxDepth;
    for k := 0 to depth
      invariant pool == Search(samples, start, k, width)
      invariant evaluated == Evaluated(samples, start, k, width)
    {
      var candidates := Expand(pool);
      var ranked := Sort(RankOrder(samples), candidates);
      evaluated := evaluated + Keys(candidates);
      pool := Prefix(ranked, width);
    }
    if width >= 1 {
      SearchImprovesIff(samples, constants, depth, width);
      ResultBeatsTerminals(samples, constants, depth, width, ([X] + Constants(constants))[0]);
    }
    var best := Best(samples, pool);
    if best.None? {
      return Failure(EmptyPool);
    }
    var baseline := MeanError(X, samples);
    var mse := MeanError(best.value, samples);
    var improvement := CompareErrors(baseline, mse);
    r := Success(Found(best.value, mse, baseline, improvement, |evaluated|));
  }

  /** The mean of the squared differences. */
  method MeanError(e: Expr, data: seq<Sample>) returns (mse: real)
    ensures mse == Mse(e, data)
  {
    hide Evaluate;
    var total := 0.0;
    for i := 0 to |data|
      invariant total == TotalError(e, data[..i])
    {
      assert data[..i + 1][..i] == data[..i];
      var delta := Evaluate(e, data[i].x) - data[i].target;
      total := total + delta * delta;
    }
    assert data[..|data|] == data;
    var count := |data|;
    if count < 1 {
      count := 1;
    }
    mse := total / count as real;
  }

  method CompareErrors(baseline: real, mse: real) returns (improvement: real)
    ensures improvement == Improvement(baseline, mse)
  {
    if baseline == 0.0 {
      improvement := if mse == 0.0 then 1.0 else 0.0;
    } else {
      var divisor := mse;
      if divisor < 0.000000000001 {
        divisor := 0.000000000001;
      }
      improvement := baseline / divisor;
    }
  }

  method ReadTerminals(constants: seq<int>) returns (d: seq<Expr>)
    ensures d == Terminals(constants)
  {
    hide Put;
    ghost var all := [X] + Constants(constants);
    assert all[..1] == [X] && [X][..0] == [];
    d := Enter([], X);
    for i := 0 to |constants|
      invariant d == PutAll([], all[..i + 1])
    {
      assert all[..i + 2][..i + 1] == all[..i + 1];
      d := Enter(d, Const(constants[i]));
    }
    assert all[..|constants| + 1] == all;
  }

  /** Dictionary assignment by key: the place of the key stays, the expression is replaced. */
  method Enter(d: seq<Expr>, e: Expr) returns (r: seq<Expr>)
    ensures r == Put(d, e)
  {
    hide Canonical;
    var i := 0;
    assert d[..0] + Put(d[0..], e) == Put(d, e);
    while i < |d| && Canonical(d[i]) != Canonical(e)
      invariant i <= |d| && Put(d, e) == d[..i] + Put(d[i..], e)
    {
      assert d[i..][1..] == d[i + 1..] && d[i..][0] == d[i];
      assert d[..i] + [d[i]] == d[..i + 1];
      i := i + 1;
    }
    r := if i < |d| then d[..i] + [e] + d[i + 1..] else d + [e];
    if i < |d| {
      assert d[i..][1..] == d[i + 1..] && d[i..][0] == d[i];
      assert Put(d[i..], e) == [e] + d[i + 1..];
    }
  }

  /** The candidates of a round, entered in the order the loops visit them. */
  method Expand(pool: seq<Expr>) returns (candidates: seq<Expr>)
    ensures candidates == Candidates(pool)
  {
    hide Put;
    candidates := pool;
    for i := 0 to |pool|
      invariant candidates == PutAll(pool, Squares(pool)[..i])
    {
      assert Squares(pool)[..i + 1][..i] == Squares(pool)[..i];
      candidates := Enter(candidates, Square(pool[i]));
    }
    assert Squares(pool)[..|pool|] == Squares(pool);
    ghost var squared := candidates;
    for i := 0 to |pool|
      invariant candidates == PutAll(squared, Combos(pool[..i], pool))
    {
      candidates := ExpandRow(candidates, pool[i], pool);
      assert pool[..i + 1][..i] == pool[..i];
      PutAllAppend(squared, Combos(pool[..i], pool), Row(pool[i], pool));
    }
    assert pool[..|pool|] == pool;
  }

  method ExpandRow(candidates: seq<Expr>, left: Expr, base: seq<Expr>) returns (next: seq<Expr>)
    ensures next == PutAll(candidates, Row(left, base))
  {
    hide Put;
    next := candidates;
    for j := 0 to |base|
      invariant next == PutAll(candidates, Row(left, base[..j]))
    {
      var right := base[j];
      assert base[..j + 1][..j] == base[..j];
      PutThree(next, Add(left, right), Sub(left, right), Mul(left, right));
      PutAllAppend(candidates, Row(left, base[..j]), [Add(left, right), Sub(left, right), Mul(left, right)]);
      next := Enter(next, Add(left, right));
      next := Enter(next, Sub(left, right));
      next := Enter(next, Mul(left, right));
    }
    assert base[..|base|] == base;
  }

  lemma PutThree(d: seq<Expr>, a: Expr, b: Expr, c: Expr)
    ensures PutAll(d, [a, b, c]) == Put(Put(Put(d, a), b), c)
  {
    hide Put;
    assert [a, b, c][..2] == [a, b] && [a, b][..1] == [a] && [a][..0] == [];
    assert PutAll(d, [a]) == Put(d, a);
    assert PutAll(d, [a, b]) == Put(PutAll(d, [a]), b);
  }
}
