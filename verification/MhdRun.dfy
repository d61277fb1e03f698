/** The midpoint integrator of the finite-difference MHD equations: its steps, whole runs and the sums
    that every run conserves. */
module MhdRun {
  import opened Arakawa
  import opened Bits
  import opened Dft
  import opened Fft
  import opened Grid
  import opened Mhd
  import opened Poisson
  import opened Rounding
  import opened Wrappers

  const MEAN_TOLERANCE := 0.000000000001

  /** Vorticity and magnetic potential. */
  datatype State = State(omega: Field, a: Field)

  /** Coefficients of a run. */
  datatype Physics = Physics(viscosity: real, resistivity: real, h2: real, n: nat)

  ghost predicate WellShaped(s: State, p: Physics) {
    Square(s.omega, p.n) && Square(s.a, p.n)
  }

  /** `k` is the right-hand side at `s`, computed from the exact stream function of its vorticity. */
  ghost predicate IsRate(s: State, k: State, p: Physics)
    requires p.h2 > 0.0
  {
    exists psi: Field :: RateVia(psi, s, k, p)
  }

  ghost predicate RateVia(psi: Field, s: State, k: State, p: Physics)
    requires p.h2 > 0.0
  {
    && InvertsLaplacian(psi, s.omega, p.h2, p.n)
    && k.omega == VorticityRate(psi, s.omega, s.a, p.viscosity, p.h2, p.n)
    && k.a == PotentialRate(psi, s.a, p.resistivity, p.h2, p.n)
  }

  function AddScaledPair(s: State, k: State, scale: real, n: nat): State {
    State(Combine(1.0, s.omega, scale, k.omega, n), Combine(1.0, s.a, scale, k.a, n))
  }

  lemma AddedAt(s: State, k: State, scale: real, n: nat, i: nat, j: nat)
    requires i < n && j < n
    ensures var r := AddScaledPair(s, k, scale, n);
            && At(r.omega, i, j) == At(s.omega, i, j) + scale * At(k.omega, i, j)
            && At(r.a, i, j) == At(s.a, i, j) + scale * At(k.a, i, j)
  {
  }

  /** One explicit midpoint step. */
  ghost predicate MidpointStep(s: State, s': State, dt: real, p: Physics)
    requires p.h2 > 0.0
  {
    exists k1: State, k2: State :: StepVia(k1, k2, s, s', dt, p)
  }

  ghost predicate StepVia(k1: State, k2: State, s: State, s': State, dt: real, p: Physics)
    requires p.h2 > 0.0
  {
    && IsRate(s, k1, p)
    && IsRate(AddScaledPair(s, k1, 0.5 * dt, p.n), k2, p)
    && s' == AddScaledPair(s, k2, dt, p.n)
  }

  // ----- methods -----

  method RhsFd(omega: Field, a: Field, viscosity: real, resistivity: real, twoPi: real, t: Trig, sinHalf: int -> real)
    returns (r: Result<State, string>)
    requires HalfAngles(t) && 0.0 < twoPi <= 7.0
    requires |omega| >= 1 ==> HalfSines(sinHalf, t, |omega|)
    ensures r.Success? <==>
            && viscosity >= 0.0 && resistivity >= 0.0
            && |omega| >= 8 && IsPowerOfTwo(|omega|)
            && Square(omega, |omega|) && Square(a, |omega|)
    ensures r.Success? ==>
              var h2 := SpacingSquared(twoPi, |omega|);
              h2 > 0.0 && IsRate(State(omega, a), r.value, Physics(viscosity, resistivity, h2, |omega|))
  {
    hide HalfAngles, HalfSines, InvertsLaplacian, VorticityRate, PotentialRate, JacobianField, Laplacian,
         SpacingSquared;
    if viscosity < 0.0 || resistivity < 0.0 {
      return Failure("viscosity and resistivity must be nonnegative");
    }
    var n := |omega|;
    if n >= 1 { AndPredecessorIsPowerOfTwoTest(n); }
    if !Radix2(n) {
      return Failure("G3 requires radix-2 grid_size >= 8");
    }
    if |a| != n || (exists i :: 0 <= i < n && |omega[i]| != n) || (exists i :: 0 <= i < n && |a[i]| != n) {
      return Failure("omega and a must be equal square fields");
    }
    var stream := SolveMinusLaplacian(omega, twoPi, t, sinHalf);
    var psi := stream.value;
    var h2 := SpacingSquared(twoPi, n);
    SpacingSquaredArea(twoPi, n);
    assert Square(psi, n) by { StreamIsSquare(psi, omega, h2, n); }
    var c := JacobianScale(h2);
    var current := Current(a, h2, n);
    CurrentIsSquare(a, h2, n);
    var advW := ArakawaJacobian(psi, omega, h2);
    var lorentzRaw := ArakawaJacobian(a, current, h2);
    var lorentz := Negate(lorentzRaw, n);
    var advA := ArakawaJacobian(psi, a, h2);
    var dOmega := Blend(advW, lorentz, viscosity, Laplacian(omega, h2, n), n);
    var dA := Blend(advA, ZeroField(n), resistivity, Laplacian(a, h2, n), n);
    r := Success(State(dOmega, dA));
    RatesUnfold(psi, omega, a, viscosity, resistivity, h2, n);
    assert RateVia(psi, State(omega, a), r.value, Physics(viscosity, resistivity, h2, n));
  }

  lemma RatesUnfold(psi: Field, omega: Field, a: Field, viscosity: real, resistivity: real, h2: real, n: nat)
    requires h2 > 0.0
    ensures var c := 1.0 / (12.0 * h2);
            && VorticityRate(psi, omega, a, viscosity, h2, n) ==
               Blend(JacobianField(psi, omega, c, n), Negate(JacobianField(a, Current(a, h2, n), c, n), n),
                     viscosity, Laplacian(omega, h2, n), n)
            && PotentialRate(psi, a, resistivity, h2, n) ==
               Blend(JacobianField(psi, a, c, n), ZeroField(n), resistivity, Laplacian(a, h2, n), n)
  {
    hide Blend, JacobianField, Laplacian, Negate, Current, ZeroField;
  }

  lemma StreamIsSquare(psi: Field, omega: Field, h2: real, n: nat)
    requires h2 > 0.0 && InvertsLaplacian(psi, omega, h2, n)
    ensures Square(psi, n)
  {
  }

  lemma CurrentIsSquare(a: Field, h2: real, n: nat)
    requires h2 > 0.0
    ensures Square(Current(a, h2, n), n)
  {
    hide Laplacian;
  }

  lemma StepIsWellShaped(s: State, k: State, scale: real, n: nat)
    ensures Square(AddScaledPair(s, k, scale, n).omega, n) && Square(AddScaledPair(s, k, scale, n).a, n)
  {
  }

  method MidpointStepFd(omega: Field, a: Field, dt: real, viscosity: real, resistivity: real, twoPi: real, t: Trig,
                        sinHalf: int -> real)
    returns (r: Result<State, string>)
    requires HalfAngles(t) && 0.0 < twoPi <= 7.0
    requires |omega| >= 1 ==> HalfSines(sinHalf, t, |omega|)
    ensures r.Success? <==>
            && viscosity >= 0.0 && resistivity >= 0.0
            && |omega| >= 8 && IsPowerOfTwo(|omega|)
            && Square(omega, |omega|) && Square(a, |omega|)
    ensures r.Success? ==>
              var h2 := SpacingSquared(twoPi, |omega|);
              var p := Physics(viscosity, resistivity, h2, |omega|);
              h2 > 0.0 && MidpointStep(State(omega, a), r.value, dt, p) && WellShaped(r.value, p)
  {
    hide HalfAngles, HalfSines, IsRate, SpacingSquared, AddScaledPair;
    var n := |omega|;
    var k1 := RhsFd(omega, a, viscosity, resistivity, twoPi, t, sinHalf);
    if k1.Failure? {
      return k1;
    }
    var s := State(omega, a);
    var mid := AddScaledPair(s, k1.value, 0.5 * dt, n);
    StepIsWellShaped(s, k1.value, 0.5 * dt, n);
    var k2 := RhsFd(mid.omega, mid.a, viscosity, resistivity, twoPi, t, sinHalf);
    r := Success(AddScaledPair(s, k2.value, dt, n));
    StepIsWellShaped(s, k2.value, dt, n);
    assert State(mid.omega, mid.a) == mid;
    assert StepVia(k1.value, k2.value, s, r.value, dt, Physics(viscosity, resistivity, SpacingSquared(twoPi, n), n));
  }

  /** The states of a run, each a midpoint step after the previous one. */
  ghost predicate IsRun(trace: seq<State>, dt: real, p: Physics)
    requires p.h2 > 0.0
  {
    && |trace| >= 1
    && (forall i :: 0 <= i < |trace| ==> WellShaped(trace[i], p))
    && forall i :: 0 <= i < |trace| - 1 ==> MidpointStep(trace[i], trace[i + 1], dt, p)
  }

  ghost predicate RunBetween(trace: seq<State>, first: State, last: State, steps: nat, dt: real, p: Physics)
    requires p.h2 > 0.0
  {
    IsRun(trace, dt, p) && |trace| == steps + 1 && trace[0] == first && trace[steps] == last
  }

  method IntegrateFdMhd(omega0: Field, a0: Field, viscosity: real, resistivity: real, dt: real, finalTime: real,
                        twoPi: real, t: Trig, sinHalf: int -> real)
    returns (r: Result<(State, real, nat), string>)
    requires HalfAngles(t) && 0.0 < twoPi <= 7.0
    requires |omega0| >= 1 ==> HalfSines(sinHalf, t, |omega0|)
    ensures r.Success? <==>
            && |omega0| >= 8 && IsPowerOfTwo(|omega0|) && Square(omega0, |omega0|) && Square(a0, |omega0|)
            && dt > 0.0 && finalTime > 0.0 && viscosity >= 0.0 && resistivity >= 0.0
            && Area(|omega0|) > 0.0 && -MEAN_TOLERANCE <= Total(omega0) / Area(|omega0|) <= MEAN_TOLERANCE
    ensures r.Success? ==>
              var (s, effectiveDt, steps) := r.value;
              var h2 := SpacingSquared(twoPi, |omega0|);
              && h2 > 0.0 && steps == StepCount(finalTime, dt) && NearestCount(steps, finalTime, dt)
              && effectiveDt == finalTime / (steps as real)
              && Total(s.omega) == Total(omega0) && Total(s.a) == Total(a0)
              && exists trace: seq<State> ::
                   RunBetween(trace, State(omega0, a0), s, steps, effectiveDt,
                       Physics(viscosity, resistivity, h2, |omega0|))
  {
    hide HalfAngles, HalfSines, MidpointStep, SpacingSquared, Total, Area, NearestCount;
    var n := |omega0|;
    if n >= 1 { AndPredecessorIsPowerOfTwoTest(n); }
    if !Radix2(n) {
      return Failure("G3 requires radix-2 grid_size >= 8");
    }
    AreaPositive(n);
    SpacingSquaredArea(twoPi, n);
    if |a0| != n {
      return Failure("initial fields must have matching dimensions");
    }
    if dt <= 0.0 || finalTime <= 0.0 {
      return Failure("dt and final_time must be positive");
    }
    var mean := Total(omega0) / Area(n);
    if mean > 0.000000000001 || mean < -0.000000000001 {
      return Failure("periodic discrete Poisson inversion requires near-zero mean vorticity");
    }
    var rounded := RoundHalfEven(finalTime / dt);
    var steps: nat := if rounded < 1 then 1 else rounded;
    StepCountIsNearest(finalTime, dt);
    var effectiveDt := finalTime / (steps as real);
    ghost var p := Physics(viscosity, resistivity, SpacingSquared(twoPi, n), n);
    var s := State(omega0, a0);
    ghost var trace := [s];
    var taken := 0;
    while taken < steps
      invariant taken <= steps && |trace| == taken + 1 && trace[0] == State(omega0, a0) && trace[taken] == s
      invariant |s.omega| == n && |s.a| == n
      invariant taken == 0 ==> s == State(omega0, a0)
      invariant taken > 0 ==> viscosity >= 0.0 && resistivity >= 0.0 && Square(omega0, n) && Square(a0, n)
      invariant taken > 0 ==> IsRun(trace, effectiveDt, p)
    {
      var next := MidpointStepFd(s.omega, s.a, effectiveDt, viscosity, resistivity, twoPi, t, sinHalf);
      if next.Failure? {
        assert taken == 0;
        return Failure(next.error);
      }
      assert State(s.omega, s.a) == s;
      trace := trace + [next.value];
      s := next.value;
      taken := taken + 1;
    }
    RunKeepsSums(trace, effectiveDt, p);
    assert RunBetween(trace, State(omega0, a0), s, steps, effectiveDt, p);
    r := Success((s, effectiveDt, steps));
  }

  // ----- what every run keeps -----

  lemma AddScaledKeepsSum(f: Field, k: Field, scale: real, n: nat)
    requires Square(f, n) && Square(k, n) && Total(k) == 0.0
    ensures Total(Combine(1.0, f, scale, k, n)) == Total(f)
  {
    TotalCombine(Combine(1.0, f, scale, k, n), 1.0, f, scale, k, n);
    hide Total;
  }

  /** A midpoint step changes neither sum, whatever its right-hand sides. */
  lemma StepKeepsSums(s: State, s': State, dt: real, p: Physics)
    requires p.h2 > 0.0 && WellShaped(s, p) && MidpointStep(s, s', dt, p)
    ensures Total(s'.omega) == Total(s.omega) && Total(s'.a) == Total(s.a)
  {
    hide InvertsLaplacian, VorticityRate, PotentialRate, Total, Combine;
    var k1: State, k2: State :| StepVia(k1, k2, s, s', dt, p);
    var mid := AddScaledPair(s, k1, 0.5 * dt, p.n);
    var psi: Field :| RateVia(psi, mid, k2, p);
    GridIsNonEmpty(psi, mid.omega, p.h2, p.n);
    RatesSumToZero(psi, mid.omega, mid.a, p.viscosity, p.resistivity, p.h2, p.n);
    RatesAreSquare(psi, mid.omega, mid.a, p.viscosity, p.resistivity, p.h2, p.n);
    AddScaledKeepsSum(s.omega, k2.omega, dt, p.n);
    AddScaledKeepsSum(s.a, k2.a, dt, p.n);
  }

  lemma GridIsNonEmpty(psi: Field, omega: Field, h2: real, n: nat)
    requires h2 > 0.0 && InvertsLaplacian(psi, omega, h2, n)
    ensures n > 0
  {
  }

  /** Total vorticity and total potential are constant along every run. */
  lemma {:induction false} RunKeepsSums(trace: seq<State>, dt: real, p: Physics)
    requires p.h2 > 0.0 && IsRun(trace, dt, p)
    ensures forall i :: 0 <= i < |trace| ==>
            Total(trace[i].omega) == Total(trace[0].omega) && Total(trace[i].a) == Total(trace[0].a)
  {
    hide MidpointStep, Total;
    if |trace| == 1 {
    } else {
      var rest := trace[..|trace| - 1];
      RunKeepsSums(rest, dt, p);
      StepKeepsSums(trace[|trace| - 2], trace[|trace| - 1], dt, p);
      forall i | 0 <= i < |trace|
        ensures Total(trace[i].omega) == Total(trace[0].omega) && Total(trace[i].a) == Total(trace[0].a)
      {
        if i < |trace| - 1 {
          assert trace[i] == rest[i];
        } else {
          assert trace[|trace| - 2] == rest[|trace| - 2];
        }
      }
    }
  }
}
