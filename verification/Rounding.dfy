/** Python's `round`: to the nearest integer, ties to the even neighbour. */
module Rounding {
  import opened RealArith

  function RoundHalfEven(x: real): (r: int)
    ensures x - 0.5 <= r as real <= x + 0.5
  {
    var f := x.Floor;
    var d := x - f as real;
    if d < 0.5 then f else if d > 0.5 then f + 1 else if f % 2 == 0 then f else f + 1
  }

  lemma RoundMonotone(x: real, y: real)
    requires x <= y
    ensures RoundHalfEven(x) <= RoundHalfEven(y)
  {
    if x.Floor == y.Floor {
    } else {
      assert x.Floor + 1 <= y.Floor;
    }
  }

  lemma RoundInteger(k: int)
    ensures RoundHalfEven(k as real) == k
  {
  }

  /** The nearest whole number, and of two equally near ones the even one: nothing else is. */
  lemma RoundIff(x: real, n: int)
    ensures RoundHalfEven(x) == n <==>
            -0.5 < x - n as real < 0.5 || ((x - n as real == 0.5 || x - n as real == -0.5) && n % 2 == 0)
  {
    var r := RoundHalfEven(x);
    var f := x.Floor;
    assert n < f ==> x - n as real >= 1.0;
    assert n > f + 1 ==> x - n as real < -1.0;
  }

  /** `max(1, round(final_time / dt))`. */
  function StepCount(finalTime: real, dt: real): (steps: nat)
    requires dt > 0.0
    ensures steps >= 1
  {
    var r := RoundHalfEven(finalTime / dt);
    if r >= 1 then r else 1
  }

  function TotalTime(steps: nat, dt: real): real {
    Product(steps as real, dt)
  }

  /** The number of steps whose total time at dt is nearest to the final time, one for a time below half a step, and
      exactly k for a time of k steps. */
  ghost predicate NearestCount(steps: nat, finalTime: real, dt: real) {
    && steps >= 1
    && (finalTime >= 0.5 * dt ==> -0.5 * dt <= TotalTime(steps, dt) - finalTime <= 0.5 * dt)
    && (finalTime < 0.5 * dt ==> steps == 1)
    && forall k: nat :: k >= 1 && finalTime == TotalTime(k, dt) ==> steps == k
  }

  lemma StepCountIsNearest(finalTime: real, dt: real)
    requires dt > 0.0 && finalTime > 0.0
    ensures NearestCount(StepCount(finalTime, dt), finalTime, dt)
  {
    hide Product, RoundHalfEven;
    var x, steps := finalTime / dt, StepCount(finalTime, dt);
    QuotientTimes(finalTime, dt);
    CompareTimes(x, 0.5, dt);
    RoundIff(x, 0);
    RoundIff(x, 1);
    var r := RoundHalfEven(x);
    if x >= 0.5 {
      assert r >= 1 || (r == 0 && x == 0.5);
      assert -0.5 <= steps as real - x <= 0.5;
      ScaleUp(x, steps as real, dt);
    }
    HalfTimes(dt);
    forall k: nat | k >= 1 && finalTime == TotalTime(k, dt) ensures steps == k {
      CompareTimes(x, k as real, dt);
      CompareTimes(k as real, x, dt);
      RoundIff(x, k);
    }
  }

  lemma QuotientTimes(x: real, dt: real)
    requires dt > 0.0
    ensures Product(x / dt, dt) == x
  {
  }

  lemma HalfTimes(dt: real)
    ensures Product(0.5, dt) == 0.5 * dt
  {
  }

  lemma CompareTimes(x: real, y: real, dt: real)
    requires dt > 0.0
    ensures Product(x, dt) >= Product(y, dt) <==> x >= y
  {
    assert Product(x - y, dt) == Product(x, dt) - Product(y, dt);
    assert Product(y - x, dt) == -Product(x - y, dt);
    hide Product;
    if x > y {
      ProductOfPositives(x - y, dt);
    } else if x < y {
      ProductOfPositives(y - x, dt);
    }
  }

  lemma ScaleUp(x: real, r: real, dt: real)
    requires dt > 0.0 && -0.5 <= r - x <= 0.5
    ensures -0.5 * dt <= Product(r, dt) - Product(x, dt) <= 0.5 * dt
  {
    CompareTimes(r, x - 0.5, dt);
    CompareTimes(x + 0.5, r, dt);
    assert Product(x - 0.5, dt) == Product(x, dt) - 0.5 * dt && Product(x + 0.5, dt) == Product(x, dt) + 0.5 * dt;
    hide Product;
  }
}
