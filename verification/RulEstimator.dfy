/** The two-state Kalman filter of `ExponentialRUL`. `Update` ingests one frame; the lemmas connect a
    whole run to the batch problem it solves: the regularised least-squares line through every
    observation (t, ln K) seen so far. */
module RulEstimator {
  import opened RealMath
  import opened Matrix
  import opened Wrappers

  // ----- One step of the filter

  datatype Estimate = Estimate(x: Vec, p: Mat)

  datatype Observation = Observation(t: real, z: real) {
    function H(): Vec { Vec(1.0, t) }
  }

  function InnovationVariance(e: Estimate, q: Mat, r: real, o: Observation): real {
    o.H().Dot(e.p.Plus(q).Apply(o.H())) + r
  }

  /** Predict with process noise `q`, correct with the observation, symmetrise. */
  function Step(e: Estimate, q: Mat, r: real, o: Observation): Estimate
    requires InnovationVariance(e, q, r, o) != 0.0
  {
    var p := e.p.Plus(q);
    var gain := p.Apply(o.H()).Times(1.0 / InnovationVariance(e, q, r, o));
    var p' := IDENTITY.Minus(Outer(gain, o.H())).Compose(p);
    Estimate(e.x.Plus(gain.Times(o.z - o.H().Dot(e.x))), p'.Plus(p'.Transpose()).Times(0.5))
  }

  predicate Steppable(e: Estimate, q: Mat, r: real) {
    e.p.PositiveDefinite() && q.PositiveSemidefinite() && r > 0.0
  }

  lemma InnovationAtLeastNoise(e: Estimate, q: Mat, r: real, o: Observation)
    requires Steppable(e, q, r)
    ensures e.p.Plus(q).PositiveDefinite()
    ensures InnovationVariance(e, q, r, o) >= r > 0.0
  {
    PositiveDefiniteSum(e.p, q);
    QuadraticPositive(e.p.Plus(q), o.H());
  }

  /** In exact arithmetic the gain form (I - K H) P is already symmetric, so symmetrising it changes
      nothing; both equal the rank-one downdate P - u u^T / S with u = P H. */
  lemma SymmetrisingChangesNothing(e: Estimate, q: Mat, r: real, o: Observation)
    requires Steppable(e, q, r)
    ensures InnovationVariance(e, q, r, o) >= r
    ensures var p := e.p.Plus(q); var u := p.Apply(o.H()); var s := InnovationVariance(e, q, r, o);
            var p' := IDENTITY.Minus(Outer(u.Times(1.0 / s), o.H())).Compose(p);
            && p'.Symmetric()
            && Step(e, q, r, o).p == p' == p.Minus(Outer(u, u).Times(1.0 / s))
  {
    InnovationAtLeastNoise(e, q, r, o);
    hide Vec.Dot, Vec.Times, Mat.Apply, Mat.Compose, Mat.Plus, Mat.Minus, Mat.Times, Mat.Transpose, Mat.Det, Outer;
    var p, h, b := e.p.Plus(q), o.H(), 1.0 / InnovationVariance(e, q, r, o);
    var u := p.Apply(h);
    ComposeDistributes(IDENTITY, Outer(u.Times(b), h), p);
    ComposeIdentity(p);
    OuterScales(u, h, b);
    ScaleCompose(Outer(u, h), p, b);
    OuterCompose(u, h, p);
    DowndateSymmetric(p, u, b);
  }

  /** A step keeps the covariance symmetric positive definite, so the guard max(P11, 0) never acts,
      and scales the predicted covariance's determinant by R / S. */
  lemma StepCovariance(e: Estimate, q: Mat, r: real, o: Observation)
    requires Steppable(e, q, r)
    ensures InnovationVariance(e, q, r, o) >= r
    ensures var p' := Step(e, q, r, o).p;
            && p'.PositiveDefinite()
            && p'.Det() * InnovationVariance(e, q, r, o) == e.p.Plus(q).Det() * r
  {
    InnovationAtLeastNoise(e, q, r, o);
    SymmetrisingChangesNothing(e, q, r, o);
    var p, s := e.p.Plus(q), InnovationVariance(e, q, r, o);
    Downdate(p, p.Apply(o.H()), o.t, s, r, Step(e, q, r, o).p);
  }

  lemma Downdate(p: Mat, u: Vec, t: real, s: real, r: real, p': Mat)
    requires p.PositiveDefinite() && r > 0.0 && s >= r
    requires u == p.Apply(Vec(1.0, t)) && s == u.a + t * u.b + r
    requires p' == p.Minus(Outer(u, u).Times(1.0 / s))
    ensures p'.PositiveDefinite() && p'.Det() * s == p.Det() * r
  {
    DowndateScalars(p.m00, p.m01, p.m11, p.Det(), t, r, s, u.a, u.b, 1.0 / s,
                    p'.m00, p'.m01, p'.m10, p'.m11, p'.Det());
  }

  lemma DowndateScalars(a: real, b: real, d: real, det: real, t: real, r: real, s: real, ua: real, ub: real,
                        k: real, a': real, b': real, c': real, d': real, det': real)
    requires a > 0.0 && d > 0.0 && det > 0.0 && det == a * d - b * b && s >= r > 0.0 && s * k == 1.0
    requires ua == a + b * t && ub == b + d * t && s == ua + t * ub + r
    requires a' == a - k * (ua * ua) && d' == d - k * (ub * ub)
    requires b' == b - k * (ua * ub) && c' == b - k * (ub * ua) && det' == a' * d' - b' * c'
    ensures a' > 0.0 && d' > 0.0 && det' > 0.0 && det' * s == det * r
  {
    assert s * a' == a * r + (t * t) * det && s * d' == d * r + det by {
      DowndateDiagonal(a, b, d, t, r, s, ua, ub, k);
    }
    assert s * det' == det * r by { DowndateDet(a, b, d, t, r, s, ua, ub, k); }
    DowndateSigns(a, d, det, t, r, s, a', d', det', s * a', s * d', s * det');
  }

  lemma DowndateSigns(a: real, d: real, det: real, t: real, r: real, s: real, a': real, d': real, det': real,
                      sa: real, sd: real, sdet: real)
    requires a > 0.0 && d > 0.0 && det > 0.0 && s >= r > 0.0
    requires sa == s * a' && sd == s * d' && sdet == s * det'
    requires sa == a * r + (t * t) * det && sd == d * r + det && sdet == det * r
    ensures a' > 0.0 && d' > 0.0 && det' > 0.0
  {
    PositiveProduct(a, r, a * r);
    PositiveProduct(d, r, d * r);
    PositiveProduct(det, r, sdet);
    SquareSign(t);
    NonNegativeProduct(t * t, det, (t * t) * det);
    PositiveFactor(s, a', sa);
    PositiveFactor(s, d', sd);
    PositiveFactor(s, det', sdet);
  }

  lemma DowndateDiagonal(a: real, b: real, d: real, t: real, r: real, s: real, ua: real, ub: real, k: real)
    requires ua == a + b * t && ub == b + d * t && s == ua + t * ub + r && s * k == 1.0
    ensures s * (a - k * (ua * ua)) == a * r + (t * t) * (a * d - b * b)
    ensures s * (d - k * (ub * ub)) == d * r + (a * d - b * b)
  {
    Associate(s, k, ua * ua);
    Associate(s, k, ub * ub);
    assert s * (a - k * (ua * ua)) == s * a - ua * ua;
    assert s * (d - k * (ub * ub)) == s * d - ub * ub;
  }

  lemma DowndateDet(a: real, b: real, d: real, t: real, r: real, s: real, ua: real, ub: real, k: real)
    requires ua == a + b * t && ub == b + d * t && s == ua + t * ub + r && s * k == 1.0
    ensures s * ((a - k * (ua * ua)) * (d - k * (ub * ub)) - (b - k * (ua * ub)) * (b - k * (ub * ua)))
         == (a * d - b * b) * r
  {
    var det, w := a * d - b * b, a * (ub * ub) + d * (ua * ua) - 2.0 * b * (ua * ub);
    assert a * ub - b * ua == t * det && d * ua - b * ub == det;
    assert w == (a * ub - b * ua) * ub + (d * ua - b * ub) * ua;
    assert w == det * (s - r);
    assert (a - k * (ua * ua)) * (d - k * (ub * ub)) - (b - k * (ua * ub)) * (b - k * (ub * ua)) == det - k * w;
    Associate(s, k, w);
    assert s * (det - k * w) == s * det - w;
  }

  // ----- The information form

  /** What one observation adds to the information matrix and to the information vector. */
  function Evidence(r: real, o: Observation): Mat
    requires r != 0.0
  {
    Outer(o.H(), o.H()).Times(1.0 / r)
  }

  function EvidenceVector(r: real, o: Observation): Vec
    requires r != 0.0
  {
    o.H().Times((1.0 / r) * o.z)
  }

  /** With any process noise, a step adds the observation's evidence to the predicted information. */
  lemma StepInformation(e: Estimate, q: Mat, r: real, o: Observation, l: Mat)
    requires Steppable(e, q, r) && InformationOf(l, e.p.Plus(q))
    ensures InnovationVariance(e, q, r, o) >= r
    ensures var e' := Step(e, q, r, o); var l' := l.Plus(Evidence(r, o));
            && InformationOf(l', e'.p)
            && l'.Apply(e'.x) == l.Apply(e.x).Plus(EvidenceVector(r, o))
  {
    SymmetrisingChangesNothing(e, q, r, o);
    hide Vec.Dot, Vec.Times, Vec.Plus, Mat.Apply, Mat.Compose, Mat.Plus, Mat.Minus, Mat.Times, Mat.Transpose, Mat.Det, Outer;
    var p, h, s := e.p.Plus(q), o.H(), InnovationVariance(e, q, r, o);
    var u := p.Apply(h);
    DotLaws(h, u, u, 1.0);
    RankOneInverse(l, p, u, h, s, r);
    InverseApplied(l, p, h);
    Reciprocal(s);
    Reciprocal(r);
    StepMean(l, e.x, u, h, o.z, s, r, 1.0 / s, 1.0 / r, (1.0 / r) * o.z);
  }

  lemma Reciprocal(x: real)
    requires x > 0.0
    ensures x * (1.0 / x) == 1.0
  {
  }

  lemma StepMean(l: Mat, x: Vec, u: Vec, h: Vec, z: real, s: real, r: real, k: real, a: real, az: real)
    requires l.Apply(u) == h && s == h.Dot(u) + r && s * k == 1.0 && r * a == 1.0 && az == a * z
    ensures l.Plus(Outer(h, h).Times(a)).Apply(x.Plus(u.Times(k).Times(z - h.Dot(x))))
         == l.Apply(x).Plus(h.Times(az))
  {
    hide Vec.Dot, Vec.Times, Vec.Plus, Mat.Apply, Mat.Plus, Mat.Times, Outer;
    var y, l' := z - h.Dot(x), l.Plus(Outer(h, h).Times(a));
    var b := k * y;
    var x' := x.Plus(u.Times(b));
    var c := h.Dot(x') * a;
    TimesTimes(u, k, y, b);
    calc {
      l'.Apply(x');
      { PlusApply(l, Outer(h, h).Times(a), x'); ScaleApply(Outer(h, h), x', a); OuterApply(h, h, x');
        TimesTimes(h, h.Dot(x'), a, c); }
      l.Apply(x').Plus(h.Times(c));
      { ApplyPlus(l, x, u.Times(b)); ApplyScale(l, u, b); }
      l.Apply(x).Plus(h.Times(b)).Plus(h.Times(c));
      { PlusTimes(l.Apply(x), h, b, c); }
      l.Apply(x).Plus(h.Times(b + c));
      { DotLaws(h, x, u.Times(b), b); DotLaws(h, u, u, b);
        InnovationCollapses(z, y, h.Dot(x), h.Dot(u), s, r, k, a, b, h.Dot(x'), c, az); }
      l.Apply(x).Plus(h.Times(az));
    }
  }

  lemma InnovationCollapses(z: real, y: real, hx: real, hu: real, s: real, r: real, k: real, a: real,
                            b: real, hx': real, c: real, az: real)
    requires z == y + hx && s * k == 1.0 && r * a == 1.0 && s == hu + r
    requires b == k * y && hx' == hx + b * hu && c == hx' * a && az == a * z
    ensures b + c == az
  {
    assert s * b == y by { Associate(s, k, y); }
    assert hx' == z - r * b;
    assert a * (r * b) == b by { Associate(a, r, b); }
  }

  // ----- Runs

  /** The estimate after every observation in turn. */
  function Run(e: Estimate, q: Mat, r: real, obs: seq<Observation>): (e': Estimate)
    requires Steppable(e, q, r)
    ensures Steppable(e', q, r)
    decreases |obs|
  {
    if obs == [] then e else
      var before, o := Run(e, q, r, obs[..|obs| - 1]), obs[|obs| - 1];
      StepCovariance(before, q, r, o);
      Step(before, q, r, o)
  }

  // The batch definitions: information matrix and vector, and the cost they minimise.

  function BatchInformation(l: Mat, r: real, obs: seq<Observation>): Mat
    requires r != 0.0
  {
    if obs == [] then l else BatchInformation(l, r, obs[..|obs| - 1]).Plus(Evidence(r, obs[|obs| - 1]))
  }

  function BatchVector(n: Vec, r: real, obs: seq<Observation>): Vec
    requires r != 0.0
  {
    if obs == [] then n else BatchVector(n, r, obs[..|obs| - 1]).Plus(EvidenceVector(r, obs[|obs| - 1]))
  }

  /** The squared residual of the line v.a + v.b t at an observation, weighted by 1 / R. */
  function Misfit(r: real, o: Observation, v: Vec): real
    requires r != 0.0
  {
    var residual := o.z - (v.a + v.b * o.t);
    (1.0 / r) * (residual * residual)
  }

  /** The regularised least-squares cost of the line v: the misfits plus the prior's penalty. */
  function Cost(l: Mat, x: Vec, r: real, obs: seq<Observation>, v: Vec): real
    requires r != 0.0
  {
    if obs == [] then l.Quadratic(v.Minus(x)) else
      Cost(l, x, r, obs[..|obs| - 1], v) + Misfit(r, obs[|obs| - 1], v)
  }

  const ZERO := Mat(0.0, 0.0, 0.0, 0.0)

  /** Without process noise, a run accumulates exactly the batch information and information vector. */
  lemma {:induction false} RunIsBatch(e: Estimate, r: real, obs: seq<Observation>, l: Mat)
    requires Steppable(e, ZERO, r) && InformationOf(l, e.p)
    ensures var e' := Run(e, ZERO, r, obs); var l' := BatchInformation(l, r, obs);
            InformationOf(l', e'.p) && l'.Apply(e'.x) == BatchVector(l.Apply(e.x), r, obs)
    decreases |obs|
  {
    if obs != [] {
      var prefix, o := obs[..|obs| - 1], obs[|obs| - 1];
      var before := Run(e, ZERO, r, prefix);
      RunIsBatch(e, r, prefix, l);
      assert before.p.Plus(ZERO) == before.p;
      hide Mat.Apply, Mat.Compose, Mat.Plus, Mat.Times, Mat.Det, Vec.Plus, Vec.Times, Outer, Step;
      StepInformation(before, ZERO, r, o, BatchInformation(l, r, prefix));
      StepCovariance(before, ZERO, r, o);
    }
  }

  /** The part of a quadratic cost with information `l` and vector `n` that depends on `v`. */
  function Objective(l: Mat, n: Vec, v: Vec): real { l.Quadratic(v) - 2.0 * v.Dot(n) }

  lemma {:induction false} CostIsQuadratic(l: Mat, x: Vec, r: real, obs: seq<Observation>, v: Vec, w: Vec)
    requires r != 0.0 && l.Symmetric()
    ensures Cost(l, x, r, obs, v) - Cost(l, x, r, obs, w)
         == Objective(BatchInformation(l, r, obs), BatchVector(l.Apply(x), r, obs), v)
          - Objective(BatchInformation(l, r, obs), BatchVector(l.Apply(x), r, obs), w)
    decreases |obs|
  {
    hide Objective, Mat.Apply, Mat.Quadratic, Misfit, Evidence, EvidenceVector;
    if obs == [] {
      ShiftedQuadratic(l, v, x);
      ShiftedQuadratic(l, w, x);
    } else {
      var prefix := obs[..|obs| - 1];
      CostIsQuadratic(l, x, r, prefix, v, w);
      MisfitIsObjective(BatchInformation(l, r, prefix), BatchVector(l.Apply(x), r, prefix), r, obs[|obs| - 1], v, w);
    }
  }

  lemma ShiftedQuadratic(l: Mat, v: Vec, x: Vec)
    requires l.Symmetric()
    ensures l.Quadratic(v.Minus(x)) == Objective(l, l.Apply(x), v) + l.Quadratic(x)
  {
  }

  /** One observation's misfit is what its evidence adds to the objective, up to a constant. */
  lemma MisfitIsObjective(l: Mat, n: Vec, r: real, o: Observation, v: Vec, w: Vec)
    requires r != 0.0
    ensures Objective(l.Plus(Evidence(r, o)), n.Plus(EvidenceVector(r, o)), v)
          - Objective(l.Plus(Evidence(r, o)), n.Plus(EvidenceVector(r, o)), w)
         == Objective(l, n, v) - Objective(l, n, w) + Misfit(r, o, v) - Misfit(r, o, w)
  {
    hide Objective, Misfit, Mat.Plus, Vec.Plus, Evidence, EvidenceVector;
    AddedObjective(l, n, r, o, v);
    AddedObjective(l, n, r, o, w);
  }

  lemma AddedObjective(l: Mat, n: Vec, r: real, o: Observation, v: Vec)
    requires r != 0.0
    ensures Objective(l.Plus(Evidence(r, o)), n.Plus(EvidenceVector(r, o)), v)
         == Objective(l, n, v) + Misfit(r, o, v) - (1.0 / r) * (o.z * o.z)
  {
  }

  lemma InformationPositive(l: Mat, p: Mat, v: Vec)
    requires InformationOf(l, p) && p.PositiveDefinite() && v != Vec(0.0, 0.0)
    ensures l.Quadratic(v) > 0.0
  {
    var w := l.Apply(v);
    InverseApplied(l, p, v);
    assert p.Apply(Vec(0.0, 0.0)) == Vec(0.0, 0.0);
    QuadraticPositive(p, w);
    assert p.Quadratic(w) == w.Dot(v);
  }

  /** The filter's state is the unique minimiser of the regularised least-squares cost, and the cost
      of any other line exceeds it by the quadratic form of the accumulated information. */
  lemma RunIsLeastSquares(e: Estimate, r: real, obs: seq<Observation>, l: Mat, v: Vec)
    requires Steppable(e, ZERO, r) && InformationOf(l, e.p)
    ensures var best := Run(e, ZERO, r, obs).x;
            && Cost(l, e.x, r, obs, v) == Cost(l, e.x, r, obs, best)
                                        + BatchInformation(l, r, obs).Quadratic(v.Minus(best))
            && (v != best ==> Cost(l, e.x, r, obs, v) > Cost(l, e.x, r, obs, best))
  {
    hide Objective, Cost, Run, BatchInformation, BatchVector, Mat.Quadratic, Mat.Apply, Mat.Compose, Mat.Det, Vec.Dot;
    RunIsBatch(e, r, obs, l);
    var e', l' := Run(e, ZERO, r, obs), BatchInformation(l, r, obs);
    CostIsQuadratic(l, e.x, r, obs, v, e'.x);
    ShiftedQuadratic(l', v, e'.x);
    ShiftedQuadratic(l', e'.x, e'.x);
    ZeroQuadratic(l');
    assert e'.x.Minus(e'.x) == Vec(0.0, 0.0);
    if v != e'.x {
      assert v.Minus(e'.x) != Vec(0.0, 0.0);
      InformationPositive(l', e'.p, v.Minus(e'.x));
    }
  }

  lemma ZeroQuadratic(l: Mat)
    ensures l.Quadratic(Vec(0.0, 0.0)) == 0.0
  {
  }

  // ----- Remaining useful life

  datatype Hours = Infinite | Finite(hours: real)

  datatype RulResult = RulResult(remaining: Hours, low: Hours, high: Hours,
                                 confidence: real, lambdaHat: real, k0Hat: real)

  /** The library functions the estimator calls. */
  datatype Library = Library(log: real -> real, exp: real -> real, sqrt: real -> real)

  /** The standard deviation of the estimate, by the delta method on lambda. */
  function RulDeviation(lnFail: real, lnNow: real, lam: real, sigmaLam: real): real
    requires lam > 0.0
  {
    Abs(-(lnFail - lnNow) / (lam * lam)) * sigmaLam
  }

  function ComputeRul(m: Library, e: Estimate, kFail: real, nUpdates: nat, now: real): RulResult
    requires IsSqrt(m.sqrt)
  {
    var lnK0, lam := e.x.a, e.x.b;
    if lam <= 0.000001 || nUpdates < 30 then
      RulResult(Infinite, Infinite, Infinite, 0.0, Max(lam, 0.0), m.exp(lnK0))
    else
      var rul := Max(0.0, (m.log(kFail) - lnK0 - lam * now) / lam);
      var sigmaLam := m.sqrt(Max(e.p.m11, 0.0));
      var sigma := RulDeviation(m.log(kFail), lnK0 + lam * now, lam, sigmaLam);
      RulResult(Finite(rul), Finite(Max(0.0, rul - 1.96 * sigma)), Finite(rul + 1.96 * sigma),
                Min(1.0, lam / (sigmaLam + 0.000000001) / 10.0), lam, m.exp(lnK0))
  }

  /** A finite estimate is ordered 0 <= low <= point <= high with confidence in (0, 1], and a positive
      point estimate is the time at which the fitted exponential reaches the failure level. */
  lemma RulIsOrdered(m: Library, e: Estimate, kFail: real, nUpdates: nat, now: real)
    requires IsSqrt(m.sqrt)
    ensures var r := ComputeRul(m, e, kFail, nUpdates, now);
            && (r.remaining.Infinite? <==> e.x.b <= 0.000001 || nUpdates < 30)
            && (r.remaining.Infinite? ==> r.low.Infinite? && r.high.Infinite? && r.confidence == 0.0)
            && (r.remaining.Finite? ==>
                  && r.low.Finite? && r.high.Finite?
                  && 0.0 <= r.low.hours <= r.remaining.hours <= r.high.hours
                  && 0.0 < r.confidence <= 1.0
                  && (r.remaining.hours > 0.0 <==> e.x.a + e.x.b * now < m.log(kFail))
                  && (r.remaining.hours > 0.0 ==> e.x.a + e.x.b * (now + r.remaining.hours) == m.log(kFail)))
  {
    hide RulDeviation, IsSqrt;
    if !(e.x.b <= 0.000001 || nUpdates < 30) {
      hide ComputeRul;
      FiniteFields(m, e, kFail, nUpdates, now);
      var sigmaLam := m.sqrt(Max(e.p.m11, 0.0));
      var gap := m.log(kFail) - (e.x.a + e.x.b * now);
      RulScalars(e.x.b, gap, now, sigmaLam, gap / e.x.b, (e.x.b / (sigmaLam + 0.000000001)) / 10.0);
      Deviation(m.log(kFail), e.x.a + e.x.b * now, gap, e.x.b, sigmaLam);
    }
  }

  /** A finite estimate from the distance ln K_fail - x0 - x1 now to the failure level and lambda with its standard
      deviation s. The half width w satisfies w^2 lambda^4 = 1.96^2 distance^2 s^2, the lower end is cut at 0, and the
      confidence is a tenth of lambda over s, at most 1. */
  ghost predicate IntervalIs(r: RulResult, distance: real, lam: real, s: real) {
    && r.remaining.Finite? && r.low.Finite? && r.high.Finite?
    && var point, w := r.remaining.hours, r.high.hours - r.remaining.hours;
    && (if distance <= 0.0 then point == 0.0 else lam * point == distance)
    && w >= 0.0 && (w * (lam * lam)) * (w * (lam * lam)) == 1.96 * 1.96 * (distance * distance) * (s * s)
    && r.low.hours == (if w <= point then point - w else 0.0)
    && (if lam >= 10.0 * (s + 0.000000001) then r.confidence == 1.0 else 10.0 * r.confidence * (s + 0.000000001) == lam)
  }

  ghost predicate IsRoot(s: real, v: real) { s >= 0.0 && s * s == v }

  lemma RootFound(sqrt: real -> real, v: real)
    requires IsSqrt(sqrt) && v >= 0.0
    ensures IsRoot(sqrt(v), v)
  {
  }

  /** How wide the interval is and where the confidence comes from: the variance of lambda is P[1,1]. */
  lemma RulInterval(m: Library, e: Estimate, kFail: real, nUpdates: nat, now: real)
    requires IsSqrt(m.sqrt)
    ensures var r, p11 := ComputeRul(m, e, kFail, nUpdates, now), if e.p.m11 >= 0.0 then e.p.m11 else 0.0;
            && r.k0Hat == m.exp(e.x.a) && r.lambdaHat == (if e.x.b >= 0.0 then e.x.b else 0.0)
            && IsRoot(m.sqrt(p11), p11)
            && (r.remaining.Infinite? || IntervalIs(r, m.log(kFail) - (e.x.a + e.x.b * now), e.x.b, m.sqrt(p11)))
  {
    var p11 := if e.p.m11 >= 0.0 then e.p.m11 else 0.0;
    RootFound(m.sqrt, p11);
    assert Max(e.p.m11, 0.0) == p11;
    hide IsSqrt, IsRoot, IntervalIs, RulDeviation;
    if !(e.x.b <= 0.000001 || nUpdates < 30) {
      hide ComputeRul;
      FiniteFields(m, e, kFail, nUpdates, now);
      IntervalScalars(ComputeRul(m, e, kFail, nUpdates, now), m.log(kFail) - (e.x.a + e.x.b * now), e.x.b, m.sqrt(p11),
                      m.log(kFail), e.x.a + e.x.b * now);
    }
  }

  lemma IntervalScalars(r: RulResult, distance: real, lam: real, s: real, lnFail: real, lnNow: real)
    requires lam > 0.0 && s >= 0.0 && distance == lnFail - lnNow
    requires r.remaining == Finite(Max(0.0, distance / lam))
    requires var sigma := RulDeviation(lnFail, lnNow, lam, s);
             r.low == Finite(Max(0.0, r.remaining.hours - 1.96 * sigma)) && r.high == Finite(r.remaining.hours + 1.96 * sigma)
    requires r.confidence == Min(1.0, lam / (s + 0.000000001) / 10.0)
    ensures IntervalIs(r, distance, lam, s)
  {
    hide RulDeviation;
    PointEstimate(distance, lam);
    Deviation(lnFail, lnNow, distance, lam, s);
    HalfWidth(lam, distance, s, RulDeviation(lnFail, lnNow, lam, s), r.high.hours - r.remaining.hours);
    Confidence(lam, s + 0.000000001, (lam / (s + 0.000000001)) / 10.0);
  }

  lemma FiniteFields(m: Library, e: Estimate, kFail: real, nUpdates: nat, now: real)
    requires IsSqrt(m.sqrt)
    requires !(e.x.b <= 0.000001 || nUpdates < 30)
    ensures var r := ComputeRul(m, e, kFail, nUpdates, now);
            var s := m.sqrt(Max(e.p.m11, 0.0));
            && s >= 0.0
            && r.remaining == Finite(Max(0.0, (m.log(kFail) - (e.x.a + e.x.b * now)) / e.x.b))
            && var sigma := RulDeviation(m.log(kFail), e.x.a + e.x.b * now, e.x.b, s);
            && r.low == Finite(Max(0.0, r.remaining.hours - 1.96 * sigma))
            && r.high == Finite(r.remaining.hours + 1.96 * sigma)
            && r.confidence == Min(1.0, e.x.b / (s + 0.000000001) / 10.0)
            && r.lambdaHat == e.x.b && r.k0Hat == m.exp(e.x.a)
  {
    hide RulDeviation;
  }

  lemma Deviation(lnFail: real, lnNow: real, d: real, lam: real, s: real)
    requires lam > 0.0 && s >= 0.0 && d == lnFail - lnNow
    ensures var sigma := RulDeviation(lnFail, lnNow, lam, s);
            sigma >= 0.0 && (sigma * (lam * lam) == d * s || sigma * (lam * lam) == -d * s)
  {
    var l2 := lam * lam;
    PositiveProduct(lam, lam, l2);
    var slope := -(lnFail - lnNow) / l2;
    var a := Abs(slope);
    assert l2 * slope == -(lnFail - lnNow);
    NonNegativeProduct(a, s, a * s);
    assert (a * s) * l2 == (l2 * a) * s;
  }

  lemma HalfWidth(lam: real, distance: real, s: real, sigma: real, w: real)
    requires w == 1.96 * sigma
    requires sigma * (lam * lam) == distance * s || sigma * (lam * lam) == -distance * s
    ensures (w * (lam * lam)) * (w * (lam * lam)) == 1.96 * 1.96 * (distance * distance) * (s * s)
  {
    var b := sigma * (lam * lam);
    assert w * (lam * lam) == 1.96 * b;
    assert b * b == (distance * distance) * (s * s);
  }

  lemma Confidence(lam: real, d: real, snr: real)
    requires d > 0.0 && snr == (lam / d) / 10.0
    ensures 10.0 * snr * d == lam
    ensures snr >= 1.0 <==> lam >= 10.0 * d
  {
    var q := lam / d;
    assert d * q == lam;
    PositiveFactor(d, q - 10.0, lam - 10.0 * d);
  }

  lemma RulScalars(lam: real, gap: real, now: real, sigmaLam: real, root: real, snr: real)
    requires lam > 0.0 && sigmaLam >= 0.0 && root == gap / lam
    requires snr == (lam / (sigmaLam + 0.000000001)) / 10.0
    ensures snr > 0.0
    ensures lam * (now + root) == lam * now + gap
    ensures Max(0.0, root) > 0.0 <==> gap > 0.0
  {
    PositiveQuotient(lam, sigmaLam + 0.000000001);
    PointEstimate(gap, lam);
  }

  lemma PositiveQuotient(x: real, d: real)
    requires x > 0.0 && d > 0.0
    ensures x / d > 0.0
  {
    assert d * (x / d) == x;
    PositiveFactor(d, x / d, x);
  }

  lemma PointEstimate(gap: real, lam: real)
    requires lam > 0.0
    ensures lam * (gap / lam) == gap
    ensures Max(0.0, gap / lam) > 0.0 <==> gap > 0.0
  {
    PositiveFactor(lam, gap / lam, gap);
  }

  // ----- The estimator over frames

  datatype Frame = Frame(kurtosis: real, seconds: real)

  datatype FilterState = FilterState(e: Estimate, q: Mat, r: real, kFail: real, tStart: Option<real>, nUpdates: nat) {
    predicate Valid() { Steppable(e, q, r) }
    function Start(f: Frame): real { tStart.GetOr(f.seconds) }
  }

  function Observe(log: real -> real, start: real, f: Frame): Observation {
    Observation((f.seconds - start) / 3600.0, log(Max(f.kurtosis, 0.001)))
  }

  function Ingest(log: real -> real, s: FilterState, f: Frame): (s': FilterState)
    requires s.Valid()
    ensures s'.Valid()
  {
    var o := Observe(log, s.Start(f), f);
    StepCovariance(s.e, s.q, s.r, o);
    s.(e := Step(s.e, s.q, s.r, o), tStart := Some(s.Start(f)), nUpdates := s.nUpdates + 1)
  }

  function IngestAll(log: real -> real, s: FilterState, frames: seq<Frame>): (s': FilterState)
    requires s.Valid()
    ensures s'.Valid()
    decreases |frames|
  {
    if frames == [] then s else Ingest(log, IngestAll(log, s, frames[..|frames| - 1]), frames[|frames| - 1])
  }

  function Observations(log: real -> real, start: real, frames: seq<Frame>): (obs: seq<Observation>)
    ensures |obs| == |frames|
    ensures forall i :: 0 <= i < |frames| ==> obs[i] == Observe(log, start, frames[i])
  {
    if frames == [] then []
    else Observations(log, start, frames[..|frames| - 1]) + [Observe(log, start, frames[|frames| - 1])]
  }

  /** Over frames, time counts from the first frame ever ingested. */
  lemma {:induction false} IngestAllIsRun(log: real -> real, s: FilterState, frames: seq<Frame>)
    requires s.Valid() && frames != []
    ensures var start := s.Start(frames[0]); var s' := IngestAll(log, s, frames);
            s' == s.(e := Run(s.e, s.q, s.r, Observations(log, start, frames)), tStart := Some(start),
                     nUpdates := s.nUpdates + |frames|)
    decreases |frames|
  {
    var prefix, start := frames[..|frames| - 1], s.Start(frames[0]);
    var obs := Observations(log, start, frames);
    assert obs[..|obs| - 1] == Observations(log, start, prefix);
    hide Step, Steppable, Observe;
    if prefix != [] {
      IngestAllIsRun(log, s, prefix);
    }
  }

  /** The state of a newly built estimator. */
  function Fresh(log: real -> real, kFail: real, processNoise: real, obsNoise: real): (s: FilterState)
    ensures processNoise >= 0.0 && obsNoise > 0.0 ==> s.Valid()
  {
    FilterState(Estimate(Vec(log(3.0), 0.0), Mat(1.0, 0.0, 0.0, 0.001)), IDENTITY.Times(processNoise), obsNoise, kFail,
                None, 0)
  }

  const PRIOR_INFORMATION := Mat(1.0, 0.0, 0.0, 1000.0)

  /** A new estimator without process noise holds, after any frames, the unique line that minimises
      the squared log-kurtosis residuals plus the prior's penalty; its covariance is the inverse of
      the accumulated information. */
  lemma FreshEstimatorIsLeastSquares(log: real -> real, kFail: real, obsNoise: real, frames: seq<Frame>, v: Vec)
    requires obsNoise > 0.0 && frames != []
    ensures var s := IngestAll(log, Fresh(log, kFail, 0.0, obsNoise), frames);
            var obs := Observations(log, frames[0].seconds, frames);
            var prior := Vec(log(3.0), 0.0);
            && InformationOf(BatchInformation(PRIOR_INFORMATION, obsNoise, obs), s.e.p)
            && (v != s.e.x ==>
                  Cost(PRIOR_INFORMATION, prior, obsNoise, obs, v)
                  > Cost(PRIOR_INFORMATION, prior, obsNoise, obs, s.e.x))
  {
    var s0, obs := Fresh(log, kFail, 0.0, obsNoise), Observations(log, frames[0].seconds, frames);
    assert s0.q == ZERO;
    assert InformationOf(PRIOR_INFORMATION, s0.e.p);
    IngestAllIsRun(log, s0, frames);
    hide Step, Steppable, Mat.Apply, Mat.Compose, Run, Cost, BatchInformation;
    RunIsBatch(s0.e, obsNoise, obs, PRIOR_INFORMATION);
    RunIsLeastSquares(s0.e, obsNoise, obs, PRIOR_INFORMATION, v);
  }

  /** What a single update does to the covariance and to the information. */
  lemma UpdateFacts(e: Estimate, q: Mat, r: real, o: Observation)
    requires Steppable(e, q, r)
    ensures InnovationVariance(e, q, r, o) > 0.0
    ensures var e' := Step(e, q, r, o);
            && Steppable(e', q, r) && e'.p.PositiveDefinite() && r > 0.0
            && forall l :: InformationOf(l, e.p.Plus(q)) ==>
                 && InformationOf(l.Plus(Evidence(r, o)), e'.p)
                 && l.Plus(Evidence(r, o)).Apply(e'.x) == l.Apply(e.x).Plus(EvidenceVector(r, o))
  {
    StepCovariance(e, q, r, o);
    hide Evidence, EvidenceVector, InformationOf, Step, Mat.Det, Mat.Apply, Mat.Plus, Vec.Plus;
    forall l | InformationOf(l, e.p.Plus(q))
      ensures var e' := Step(e, q, r, o); var l' := l.Plus(Evidence(r, o));
              InformationOf(l', e'.p) && l'.Apply(e'.x) == l.Apply(e.x).Plus(EvidenceVector(r, o))
    {
      StepInformation(e, q, r, o, l);
    }
  }

  /** The keys of `state_dict`; the last three may be missing from a stored snapshot. */
  datatype Snapshot = Snapshot(x: Vec, p: Mat, q: Mat, r: real,
                               kFail: Option<real>, tStart: Option<real>, nUpdates: Option<nat>)

  function Saved(s: FilterState): Snapshot {
    Snapshot(s.e.x, s.e.p, s.q, s.r, Some(s.kFail), s.tStart, Some(s.nUpdates))
  }

  function Loaded(s: FilterState, d: Snapshot): FilterState {
    FilterState(Estimate(d.x, d.p), d.q, d.r, d.kFail.GetOr(s.kFail), d.tStart, d.nUpdates.GetOr(0))
  }

  lemma {:induction false} IngestAllSplits(log: real -> real, s: FilterState, before: seq<Frame>, after: seq<Frame>)
    requires s.Valid()
    ensures IngestAll(log, s, before + after) == IngestAll(log, IngestAll(log, s, before), after)
    decreases |after|
  {
    hide Ingest, Steppable;
    if after == [] {
      assert before + after == before;
    } else {
      IngestAllSplits(log, s, before, after[..|after| - 1]);
      assert (before + after)[..|before + after| - 1] == before + after[..|after| - 1];
    }
  }

  /** Restarting any estimator from a snapshot taken anywhere in a run changes nothing that follows. */
  lemma CheckpointIsTransparent(log: real -> real, s: FilterState, other: FilterState, before: seq<Frame>, after: seq<Frame>)
    requires s.Valid()
    ensures Loaded(other, Saved(IngestAll(log, s, before))) == IngestAll(log, s, before)
    ensures IngestAll(log, Loaded(other, Saved(IngestAll(log, s, before))), after) == IngestAll(log, s, before + after)
  {
    IngestAllSplits(log, s, before, after);
  }

  class ExponentialRul {
    const lib: Library
    var x: Vec
    var p: Mat
    var q: Mat
    var r: real
    var kFail: real
    var tStart: Option<real>
    var nUpdates: nat

    ghost function State(): FilterState
      reads this
    {
      FilterState(Estimate(x, p), q, r, kFail, tStart, nUpdates)
    }

    ghost predicate Valid()
      reads this
    {
      State().Valid() && IsSqrt(lib.sqrt)
    }

    constructor (lib: Library, kFail: real, processNoise: real, obsNoise: real)
      ensures this.lib == lib
      ensures processNoise >= 0.0 && obsNoise > 0.0 && IsSqrt(lib.sqrt) ==> Valid()
      ensures State() == Fresh(lib.log, kFail, processNoise, obsNoise)
    {
      this.lib := lib;
      x := Vec(lib.log(3.0), 0.0);
      p := Mat(1.0, 0.0, 0.0, 0.001);
      q := IDENTITY.Times(processNoise);
      r := obsNoise;
      this.kFail := kFail;
      tStart := None;
      nUpdates := 0;
    }

    /** Ingests one frame. The covariance stays positive definite with det(P+) S = det(P-) R, the
        observation's evidence is added to the information, and the returned interval is ordered. */
    method Update(kurtosis: real, seconds: real) returns (result: RulResult)
      requires Valid()
      modifies this
      ensures Valid()
      ensures State() == Ingest(lib.log, old(State()), Frame(kurtosis, seconds))
      ensures p.PositiveDefinite() && r > 0.0 && tStart.Some?
      ensures var o := Observe(lib.log, tStart.value, Frame(kurtosis, seconds));
              && result == ComputeRul(lib, Estimate(x, p), kFail, nUpdates, o.t)
              && forall l :: InformationOf(l, old(p).Plus(q)) ==>
                   && InformationOf(l.Plus(Evidence(r, o)), p)
                   && l.Plus(Evidence(r, o)).Apply(x) == l.Apply(old(x)).Plus(EvidenceVector(r, o))
    {
      hide InformationOf, Evidence, EvidenceVector, ComputeRul, IsSqrt, Steppable, Mat.PositiveDefinite, Mat.Compose,
           Mat.Apply, Mat.Plus, Mat.Minus, Mat.Times, Mat.Transpose, Mat.Det, Vec.Dot, Vec.Times, Vec.Plus, Outer;
      if tStart == None {
        tStart := Some(seconds);
      }
      ghost var o, before := Observe(lib.log, tStart.value, Frame(kurtosis, seconds)), Estimate(x, p);
      UpdateFacts(before, q, r, o);
      var t := (seconds - tStart.value) / 3600.0;
      p := p.Plus(q);
      var z := lib.log(Max(kurtosis, 0.001));
      var h := Vec(1.0, t);
      var y := z - h.Dot(x);
      var s := h.Dot(p.Apply(h)) + r;
      var k := p.Apply(h).Times(1.0 / s);
      x := x.Plus(k.Times(y));
      p := IDENTITY.Minus(Outer(k, h)).Compose(p);
      p := p.Plus(p.Transpose()).Times(0.5);
      nUpdates := nUpdates + 1;
      result := ComputeRul(lib, Estimate(x, p), kFail, nUpdates, t);
    }

    /** A snapshot that gives any estimator this one's state. */
    method StateDict() returns (d: Snapshot)
      ensures d == Saved(State())
      ensures forall other :: Loaded(other, d) == State()
    {
      d := Snapshot(x, p, q, r, Some(kFail), tStart, Some(nUpdates));
    }

    /** Loads whatever the snapshot holds; only one that a step can start from makes the estimator valid. */
    method LoadStateDict(d: Snapshot)
      modifies this
      ensures State() == Loaded(old(State()), d)
      ensures Steppable(Estimate(d.x, d.p), d.q, d.r) && IsSqrt(lib.sqrt) ==> Valid()
    {
      x, p, q, r := d.x, d.p, d.q, d.r;
      kFail := d.kFail.GetOr(kFail);
      tStart := d.tStart;
      nUpdates := d.nUpdates.GetOr(0);
    }
  }
}
