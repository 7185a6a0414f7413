/** The Kalman filter with process noise, as `ExponentialRul` runs it: its state is where the best whole
    trajectory ends. */
module RulTrajectory {
  import opened RealMath
  import opened Matrix
  import opened RulEstimator

  // ----- The batch problem

  /** A filter with a positive definite process noise. */
  predicate Noisy(e: Estimate, q: Mat, r: real) { Steppable(e, q, r) && q.PositiveDefinite() }

  /** The cost of the hidden states t[0], t[1], ..., t[n]: the prior's penalty on t[0], the penalty on every
      change between frames, and the misfit of every observation. */
  function TrajectoryCost(e: Estimate, q: Mat, r: real, obs: seq<Observation>, t: seq<Vec>): real
    requires e.p.PositiveDefinite() && q.PositiveDefinite() && r != 0.0 && |t| == |obs| + 1
    decreases |obs|
  {
    var n := |obs|;
    if n == 0 then Inverse(e.p).Quadratic(t[0].Minus(e.x))
    else
      TrajectoryCost(e, q, r, obs[..n - 1], t[..n]) + Inverse(q).Quadratic(t[n].Minus(t[n - 1])) + Misfit(r, obs[n - 1], t[n])
  }

  // ----- One frame

  /** The best state before a frame, given the state after it. */
  function Back(e: Estimate, q: Mat, after: Vec): Vec
    requires e.p.Plus(q).Det() != 0.0
  {
    e.x.Plus(e.p.Apply(Inverse(e.p.Plus(q)).Apply(after.Minus(e.x))))
  }

  lemma PredictedIsDefinite(e: Estimate, q: Mat, r: real)
    requires Noisy(e, q, r)
    ensures e.p.Plus(q).PositiveDefinite()
  {
    PositiveDefiniteSum(e.p, q);
  }

  /** Completing the square over the state before the frame: with b = (P + Q) g, the penalties of moving a
      away from 0 and then to b are g.b plus a square that vanishes at a = P g. */
  lemma PredictSquare(l: Mat, p: Mat, w: Mat, q: Mat, a: Vec, b: Vec, g: Vec)
    requires InformationOf(l, p) && InformationOf(w, q) && b == p.Plus(q).Apply(g)
    ensures l.Quadratic(a) + w.Quadratic(b.Minus(a)) == g.Dot(b) + l.Plus(w).Quadratic(a.Minus(p.Apply(g)))
  {
    hide InformationOf, Mat.Apply, Mat.Plus, Mat.Quadratic, Vec.Dot, Vec.Minus, Vec.Plus;
    var u, v := p.Apply(g), q.Apply(g);
    var d := a.Minus(u);
    InverseApplied(l, p, g);
    InverseApplied(w, q, g);
    PlusApply(p, q, g);
    Regroup(a, u, v, d, b);
    InformationSymmetric(l, p);
    InformationSymmetric(w, q);
    QuadraticOfSum(l, u, d, g);
    QuadraticOfDifference(w, v, d, g);
    QuadraticOfPlus(l, w, d);
    DotOfSum(g, u, v, b);
  }

  lemma InformationSymmetric(l: Mat, p: Mat)
    requires InformationOf(l, p)
    ensures l.Symmetric()
  {
  }

  lemma Regroup(a: Vec, u: Vec, v: Vec, d: Vec, b: Vec)
    requires d == a.Minus(u) && b == u.Plus(v)
    ensures a == u.Plus(d) && b.Minus(a) == v.Minus(d)
  {
  }

  lemma QuadraticOfSum(l: Mat, u: Vec, d: Vec, g: Vec)
    requires l.Symmetric() && l.Apply(u) == g
    ensures l.Quadratic(u.Plus(d)) == g.Dot(u) + 2.0 * g.Dot(d) + l.Quadratic(d)
  {
    hide Mat.Apply, Vec.Dot, Vec.Plus;
    ApplyPlus(l, u, d);
    SymmetricApply(l, u, d);
    DotExpands(u, d, g, l.Apply(d));
  }

  lemma DotExpands(u: Vec, d: Vec, g: Vec, h: Vec)
    ensures u.Plus(d).Dot(g.Plus(h)) == g.Dot(u) + u.Dot(h) + g.Dot(d) + d.Dot(h)
    ensures d.Dot(g) == g.Dot(d)
  {
  }

  lemma QuadraticOfDifference(l: Mat, u: Vec, d: Vec, g: Vec)
    requires l.Symmetric() && l.Apply(u) == g
    ensures l.Quadratic(u.Minus(d)) == g.Dot(u) - 2.0 * g.Dot(d) + l.Quadratic(d)
  {
    QuadraticOfSum(l, u, d.Times(-1.0), g);
    assert u.Plus(d.Times(-1.0)) == u.Minus(d);
    NegatedQuadratic(l, d);
    assert g.Dot(d.Times(-1.0)) == -g.Dot(d);
  }

  lemma NegatedQuadratic(l: Mat, d: Vec)
    ensures l.Quadratic(d.Times(-1.0)) == l.Quadratic(d)
  {
  }

  lemma QuadraticOfPlus(l: Mat, w: Mat, d: Vec)
    ensures l.Plus(w).Quadratic(d) == l.Quadratic(d) + w.Quadratic(d)
  {
    hide Mat.Apply, Vec.Dot;
    PlusApply(l, w, d);
    DotLaws(d, l.Apply(d), w.Apply(d), 0.0);
  }

  lemma DotOfSum(g: Vec, u: Vec, v: Vec, b: Vec)
    requires b == u.Plus(v)
    ensures g.Dot(b) == g.Dot(u) + g.Dot(v)
  {
  }

  /** What one frame costs at least, from the filter's state before it. */
  function FrameFloor(e: Estimate, q: Mat, r: real, o: Observation): real
    requires Steppable(e, q, r) && e.p.Plus(q).PositiveDefinite()
  {
    InnovationAtLeastNoise(e, q, r, o);
    Cost(Inverse(e.p.Plus(q)), e.x, r, [o], Step(e, q, r, o).x)
  }

  /** The filter's step with noise Q from P is its step without noise from P + Q. */
  lemma PredictThenCorrect(e: Estimate, q: Mat, r: real, o: Observation, v: Vec)
    requires Noisy(e, q, r)
    ensures e.p.Plus(q).PositiveDefinite() && InnovationVariance(e, q, r, o) >= r
    ensures var e' := Step(e, q, r, o); var predicted := Inverse(e.p.Plus(q));
            && e'.p.PositiveDefinite()
            && predicted.Quadratic(v.Minus(e.x)) + Misfit(r, o, v) == FrameFloor(e, q, r, o) + Inverse(e'.p).Quadratic(v.Minus(e'.x))
  {
    PredictedIsDefinite(e, q, r);
    StepCovariance(e, q, r, o);
    hide Mat.Det, Mat.Apply, Mat.Compose, Mat.Quadratic, Mat.Plus, Step, InformationOf, Inverse, Misfit, Evidence;
    var f, predicted := Estimate(e.x, e.p.Plus(q)), Inverse(e.p.Plus(q));
    InverseIsInformation(f.p);
    NoNoise(e, q, r, o);
    RunIsLeastSquares(f, r, [o], predicted, v);
    RunIsBatch(f, r, [o], predicted);
    InverseIsInformation(Step(e, q, r, o).p);
    InformationUnique(BatchInformation(predicted, r, [o]), Inverse(Step(e, q, r, o).p), Step(e, q, r, o).p);
    SingleCost(predicted, e.x, r, o, v);
  }

  lemma SingleCost(l: Mat, x: Vec, r: real, o: Observation, v: Vec)
    requires r != 0.0
    ensures Cost(l, x, r, [o], v) == l.Quadratic(v.Minus(x)) + Misfit(r, o, v)
  {
    hide Misfit;
    assert [o][..0] == [];
  }

  lemma NoNoise(e: Estimate, q: Mat, r: real, o: Observation)
    requires Steppable(e, q, r) && e.p.Plus(q).PositiveDefinite()
    ensures var f := Estimate(e.x, e.p.Plus(q));
            Steppable(f, ZERO, r) && InnovationVariance(e, q, r, o) > 0.0 && Run(f, ZERO, r, [o]) == Step(e, q, r, o)
  {
    hide Mat.Det, Mat.Apply, Mat.Compose, Mat.PositiveDefinite, Outer;
    InnovationAtLeastNoise(e, q, r, o);
    ZeroIsSemidefinite();
    var f := Estimate(e.x, e.p.Plus(q));
    assert f.p.Plus(ZERO) == f.p;
    assert [o][..0] == [];
  }

  lemma ZeroIsSemidefinite()
    ensures ZERO.PositiveSemidefinite()
  {
  }

  /** One frame of the trajectory problem: whatever the states a before it and b after it, their cost is the
      frame's floor, plus a square that vanishes when b is the filter's state, plus a square that vanishes when
      a is the best state before b. */
  lemma FrameCost(e: Estimate, q: Mat, r: real, o: Observation, a: Vec, b: Vec)
    requires Noisy(e, q, r)
    ensures e.p.Plus(q).PositiveDefinite() && InnovationVariance(e, q, r, o) >= r
    ensures var e' := Step(e, q, r, o);
            && e'.p.PositiveDefinite()
            && Inverse(e.p).Quadratic(a.Minus(e.x)) + Inverse(q).Quadratic(b.Minus(a)) + Misfit(r, o, b)
               == FrameFloor(e, q, r, o) + Inverse(e'.p).Quadratic(b.Minus(e'.x))
                + Inverse(e.p).Plus(Inverse(q)).Quadratic(a.Minus(Back(e, q, b)))
  {
    PredictThenCorrect(e, q, r, o, b);
    hide Mat.Det, Mat.Apply, Mat.Compose, Mat.Quadratic, Mat.Plus, Step, InformationOf, Inverse, Misfit, FrameFloor,
         Vec.Dot, Mat.PositiveDefinite, Mat.PositiveSemidefinite;
    var sum, d := e.p.Plus(q), b.Minus(e.x);
    var g := Inverse(sum).Apply(d);
    InverseIsInformation(e.p);
    InverseIsInformation(q);
    InverseIsInformation(sum);
    InverseApplied(Inverse(sum), sum, d);
    PredictSquare(Inverse(e.p), e.p, Inverse(q), q, a.Minus(e.x), d, g);
    QuadraticIsDot(Inverse(sum), d);
    assert d.Minus(a.Minus(e.x)) == b.Minus(a);
    assert a.Minus(e.x).Minus(e.p.Apply(g)) == a.Minus(Back(e, q, b));
  }

  lemma QuadraticIsDot(l: Mat, d: Vec)
    ensures l.Quadratic(d) == l.Apply(d).Dot(d)
  {
  }

  // ----- Whole runs

  /** The best trajectory that ends in `last`: backwards from it, the best state before every frame. */
  function Smoothed(e: Estimate, q: Mat, r: real, obs: seq<Observation>, last: Vec): (t: seq<Vec>)
    requires Noisy(e, q, r)
    ensures |t| == |obs| + 1 && t[|obs|] == last
    decreases |obs|
  {
    if obs == [] then [last]
    else
      var before := Run(e, q, r, obs[..|obs| - 1]);
      PredictedIsDefinite(before, q, r);
      Smoothed(e, q, r, obs[..|obs| - 1], Back(before, q, last)) + [last]
  }

  /** The sum of the frames' floors, and the sum of the squares by which a trajectory departs from the best one
      with the same end. */
  function Floor(e: Estimate, q: Mat, r: real, obs: seq<Observation>): real
    requires Noisy(e, q, r)
    decreases |obs|
  {
    if obs == [] then 0.0
    else
      var before := Run(e, q, r, obs[..|obs| - 1]);
      PredictedIsDefinite(before, q, r);
      Floor(e, q, r, obs[..|obs| - 1]) + FrameFloor(before, q, r, obs[|obs| - 1])
  }

  function Departure(e: Estimate, q: Mat, r: real, obs: seq<Observation>, t: seq<Vec>): real
    requires Noisy(e, q, r) && |t| == |obs| + 1
    decreases |obs|
  {
    var n := |obs|;
    if n == 0 then 0.0
    else
      var before := Run(e, q, r, obs[..n - 1]);
      PredictedIsDefinite(before, q, r);
      Departure(e, q, r, obs[..n - 1], t[..n])
      + Inverse(before.p).Plus(Inverse(q)).Quadratic(t[n - 1].Minus(Back(before, q, t[n])))
  }

  /** The cost of every trajectory, completed into squares around the filter's final state. */
  lemma {:induction false} CostAroundFilter(e: Estimate, q: Mat, r: real, obs: seq<Observation>, t: seq<Vec>)
    requires Noisy(e, q, r) && |t| == |obs| + 1
    ensures var e' := Run(e, q, r, obs);
            TrajectoryCost(e, q, r, obs, t)
            == Floor(e, q, r, obs) + Inverse(e'.p).Quadratic(t[|obs|].Minus(e'.x)) + Departure(e, q, r, obs, t)
    decreases |obs|
  {
    hide Mat.Quadratic, Mat.Plus, Inverse, Step, Misfit, FrameFloor, Back, Mat.Det;
    if obs != [] {
      var n := |obs|;
      CostAroundFilter(e, q, r, obs[..n - 1], t[..n]);
      FrameCost(Run(e, q, r, obs[..n - 1]), q, r, obs[n - 1], t[n - 1], t[n]);
    }
  }

  lemma SumPositive(p: Mat, q: Mat, v: Vec)
    requires p.PositiveDefinite() && q.PositiveDefinite()
    ensures v != Vec(0.0, 0.0) ==> Inverse(p).Plus(Inverse(q)).Quadratic(v) > 0.0 && Inverse(p).Quadratic(v) > 0.0
    ensures v == Vec(0.0, 0.0) ==> Inverse(p).Plus(Inverse(q)).Quadratic(v) == 0.0 && Inverse(p).Quadratic(v) == 0.0
  {
    InverseIsInformation(p);
    InverseIsInformation(q);
    hide Mat.Det, Mat.Apply, Mat.Compose, Mat.Quadratic, Mat.Plus, Inverse, InformationOf;
    QuadraticOfPlus(Inverse(p), Inverse(q), v);
    if v != Vec(0.0, 0.0) {
      InformationPositive(Inverse(p), p, v);
      InformationPositive(Inverse(q), q, v);
    } else {
      ZeroQuadratic(Inverse(p));
      ZeroQuadratic(Inverse(q));
    }
  }

  lemma MinusZero(v: Vec, w: Vec)
    ensures v.Minus(w) == Vec(0.0, 0.0) <==> v == w
  {
  }

  /** A trajectory departs from the best one with its end exactly when it is another one. */
  lemma {:induction false} DepartureIsPositive(e: Estimate, q: Mat, r: real, obs: seq<Observation>, t: seq<Vec>)
    requires Noisy(e, q, r) && |t| == |obs| + 1
    ensures Departure(e, q, r, obs, t) >= 0.0
    ensures Departure(e, q, r, obs, t) == 0.0 <==> t == Smoothed(e, q, r, obs, t[|obs|])
    decreases |obs|
  {
    hide Mat.Quadratic, Mat.Plus, Inverse, Step, Back, Mat.Det, Vec.Minus;
    var n := |obs|;
    if n != 0 {
      var before := Run(e, q, r, obs[..n - 1]);
      DepartureIsPositive(e, q, r, obs[..n - 1], t[..n]);
      PredictedIsDefinite(before, q, r);
      SumPositive(before.p, q, t[n - 1].Minus(Back(before, q, t[n])));
      MinusZero(t[n - 1], Back(before, q, t[n]));
      assert t == t[..n] + [t[n]];
    }
  }

  /** The filter's state is the last state of the unique trajectory of least cost. */
  lemma RunEndsBestTrajectory(e: Estimate, q: Mat, r: real, obs: seq<Observation>, t: seq<Vec>)
    requires Noisy(e, q, r) && |t| == |obs| + 1
    ensures var best := Smoothed(e, q, r, obs, Run(e, q, r, obs).x);
            && best[|obs|] == Run(e, q, r, obs).x
            && (t != best ==> TrajectoryCost(e, q, r, obs, t) > TrajectoryCost(e, q, r, obs, best))
  {
    hide TrajectoryCost, Floor, Departure, Smoothed, Run, Mat.Quadratic, Inverse, Mat.Det, Vec.Minus;
    var e' := Run(e, q, r, obs);
    var best := Smoothed(e, q, r, obs, e'.x);
    CostAroundFilter(e, q, r, obs, t);
    CostAroundFilter(e, q, r, obs, best);
    DepartureIsPositive(e, q, r, obs, t);
    DepartureIsPositive(e, q, r, obs, best);
    SumPositive(e'.p, q, t[|obs|].Minus(e'.x));
    SumPositive(e'.p, q, best[|obs|].Minus(e'.x));
    MinusZero(t[|obs|], e'.x);
    MinusZero(best[|obs|], e'.x);
  }

  /** So a new estimator with any positive process noise, such as the gateway's, holds after any frames the end
      of the unique trajectory of [ln K0, lambda] that best explains the log-kurtosis observations, the prior and
      a random walk with variance `processNoise` per frame in each component. */
  lemma FreshEstimatorEndsBestTrajectory(log: real -> real, kFail: real, processNoise: real, obsNoise: real,
                                         frames: seq<Frame>, t: seq<Vec>)
    requires processNoise > 0.0 && obsNoise > 0.0 && frames != [] && |t| == |frames| + 1
    ensures var s0 := Fresh(log, kFail, processNoise, obsNoise);
            var s, obs := IngestAll(log, s0, frames), Observations(log, frames[0].seconds, frames);
            && Inverse(s0.e.p) == PRIOR_INFORMATION && Inverse(s0.q) == IDENTITY.Times(1.0 / processNoise)
            && Noisy(s0.e, s0.q, obsNoise)
            && var best := Smoothed(s0.e, s0.q, obsNoise, obs, s.e.x);
               && best[|frames|] == s.e.x
               && (t != best ==>
                     TrajectoryCost(s0.e, s0.q, obsNoise, obs, t) > TrajectoryCost(s0.e, s0.q, obsNoise, obs, best))
  {
    FreshInverses(log, kFail, processNoise, obsNoise);
    hide TrajectoryCost, Smoothed, Run, Inverse, Mat.Det, Step, Mat.Times;
    var s0, obs := Fresh(log, kFail, processNoise, obsNoise), Observations(log, frames[0].seconds, frames);
    IngestAllIsRun(log, s0, frames);
    RunEndsBestTrajectory(s0.e, s0.q, obsNoise, obs, t);
  }

  lemma FreshInverses(log: real -> real, kFail: real, processNoise: real, obsNoise: real)
    requires processNoise > 0.0 && obsNoise > 0.0
    ensures var s0 := Fresh(log, kFail, processNoise, obsNoise);
            && Noisy(s0.e, s0.q, obsNoise)
            && Inverse(s0.e.p) == PRIOR_INFORMATION && Inverse(s0.q) == IDENTITY.Times(1.0 / processNoise)
  {
    PositiveProduct(processNoise, processNoise, processNoise * processNoise);
    var k := 1.0 / processNoise;
    CancelOnce(processNoise, processNoise * processNoise);
  }

  lemma CancelOnce(x: real, xx: real)
    requires x > 0.0 && xx == x * x && xx > 0.0
    ensures x / xx == 1.0 / x
  {
    var u, v := x / xx, 1.0 / x;
    assert xx * u == x && x * v == 1.0;
    assert xx * v == x by { Associate(x, x, v); }
    assert xx * (u - v) == 0.0;
  }
}
