/** The per-feature baseline: Welford warm-up, then an exponentially weighted mean and variance.
    The class updates its fields as the gateway does; the lemmas say what those fields are in terms
    of the samples alone. */
module AdaptiveBaselines {
  import opened Moments
  import opened RealMath
  import opened Wrappers

  const FLOOR := 0.000001

  datatype Baseline = Baseline(alpha: real, warmupN: int,
                               wN: nat, wMean: real, wM2: real,
                               mean: real, variance: real, nUpdates: nat)

  function Cleared(b: Baseline): Baseline {
    b.(wN := 0, wMean := 0.0, wM2 := 0.0, mean := 0.0, variance := FLOOR, nUpdates := 0)
  }

  /** The divisor max(n - 1, 1) of the sample variance. */
  function Degrees(n: nat): (d: real)
    ensures d >= 1.0
  {
    if n <= 2 then 1.0 else (n - 1) as real
  }

  /** The variance after a sample that deviates by `delta` from the tracked mean. */
  function DecayedVariance(alpha: real, v: real, delta: real): real {
    (1.0 - alpha) * (v + alpha * delta * delta)
  }

  /** One healthy sample. */
  function Learn(b: Baseline, x: real): Baseline {
    var n := b.nUpdates + 1;
    if n <= b.warmupN then
      var wN := b.wN + 1;
      var wMean := b.wMean + (x - b.wMean) / wN as real;
      var wM2 := b.wM2 + (x - b.wMean) * (x - wMean);
      var w := b.(nUpdates := n, wN := wN, wMean := wMean, wM2 := wM2);
      if n == b.warmupN then w.(mean := wMean, variance := Max(wM2 / Degrees(wN), FLOOR)) else w
    else
      var delta := x - b.mean;
      b.(nUpdates := n, mean := b.mean + b.alpha * delta,
         variance := Max(DecayedVariance(b.alpha, b.variance, delta), FLOOR))
  }

  function Observe(b: Baseline, x: real, healthy: bool): Baseline {
    if healthy then Learn(b, x) else b
  }

  /** The mean the `mean` property reports. */
  function CurrentMean(b: Baseline): real {
    if b.nUpdates >= b.warmupN then b.mean else b.wMean
  }

  function CurrentVariance(b: Baseline): real {
    if b.nUpdates < b.warmupN then (if b.wN > 1 then b.wM2 / Degrees(b.wN) else FLOOR) else b.variance
  }

  function CurrentStd(sqrt: real -> real, b: Baseline): real {
    Max(sqrt(CurrentVariance(b)), FLOOR)
  }

  function Score(sqrt: real -> real, b: Baseline, x: real): real {
    if b.nUpdates < b.warmupN then 0.0 else (x - CurrentMean(b)) / CurrentStd(sqrt, b)
  }

  // ----- Batch definitions

  function LearnAll(b: Baseline, xs: seq<real>): Baseline
    decreases |xs|
  {
    if xs == [] then b else Learn(LearnAll(b, xs[..|xs| - 1]), xs[|xs| - 1])
  }

  /** The mean of the samples after the seed, the k-th newest weighted by alpha (1 - alpha)^k and the
      seed by what remains. */
  function WeightedMean(alpha: real, seed: real, xs: seq<real>): real
    decreases |xs|
  {
    if xs == [] then seed else (1.0 - alpha) * WeightedMean(alpha, seed, xs[..|xs| - 1]) + alpha * xs[|xs| - 1]
  }

  /** With the same weights, the mean squared deviation from `c`, the seed standing for a population
      with mean `seed` and variance `spread`. */
  function WeightedVariance(alpha: real, seed: real, spread: real, xs: seq<real>, c: real): real
    decreases |xs|
  {
    if xs == [] then
      spread + SquaredError(seed, c)
    else
      (1.0 - alpha) * WeightedVariance(alpha, seed, spread, xs[..|xs| - 1], c)
      + alpha * SquaredError(xs[|xs| - 1], c)
  }

  // ----- Warm-up

  /** The recurrences of Welford's algorithm hold of the true mean and deviations. */
  lemma WelfordStep(xs: seq<real>)
    requires xs != []
    ensures var prefix, x := xs[..|xs| - 1], xs[|xs| - 1];
            && Mean(xs) == Mean(prefix) + (x - Mean(prefix)) / |xs| as real
            && Deviations(xs, Mean(xs)) == Deviations(prefix, Mean(prefix)) + (x - Mean(prefix)) * (x - Mean(xs))
  {
    hide Mean, SquaredError, Shift;
    var prefix, x, n := xs[..|xs| - 1], xs[|xs| - 1], |xs| as real;
    MeanTimesCount(xs);
    MeanTimesCount(prefix);
    DeviationsShift(prefix, Mean(prefix), Mean(xs));
    WelfordScalars(n, Sum(prefix), Mean(prefix), Mean(xs), x);
  }

  lemma WelfordScalars(n: real, sum: real, m: real, m': real, x: real)
    requires n >= 1.0 && n * m' == sum + x && (n - 1.0) * m == sum
    ensures m' == m + (x - m) / n
    ensures Shift(n - 1.0, sum, m, m') + SquaredError(x, m') == (x - m) * (x - m')
  {
    var q := (x - m) / n;
    assert n * (m' - m - q) == 0.0 by { assert n * q == x - m; }
    assert (n - 1.0) * (m - m') == -(x - m');
    assert (n - 1.0) * ((m - m') * (m - m')) == -(x - m') * (m - m');
  }

  lemma LearnWarm(b: Baseline, x: real, m': real)
    requires b.nUpdates + 1 <= b.warmupN && m' == b.wMean + (x - b.wMean) / (b.wN + 1) as real
    ensures var m2' := b.wM2 + (x - b.wMean) * (x - m');
            var w := b.(nUpdates := b.nUpdates + 1, wN := b.wN + 1, wMean := m', wM2 := m2');
            Learn(b, x) == if w.nUpdates == b.warmupN
                           then w.(mean := m', variance := Max(m2' / Degrees(w.wN), FLOOR)) else w
  {
  }

  /** During warm-up the Welford fields are the true mean and the true sum of squared deviations; the
      last warm-up sample seeds the tracking phase with the true mean and the sample variance. */
  lemma {:induction false} WarmupIsBatch(b: Baseline, xs: seq<real>)
    requires |xs| <= b.warmupN
    ensures var s := LearnAll(Cleared(b), xs);
            && s.nUpdates == s.wN == |xs| && s.alpha == b.alpha && s.warmupN == b.warmupN
            && s.wMean == Mean(xs) && s.wM2 == Deviations(xs, Mean(xs))
            && (xs != [] && |xs| == b.warmupN ==>
                  s.mean == Mean(xs) && s.variance == Max(Deviations(xs, Mean(xs)) / Degrees(|xs|), FLOOR))
    decreases |xs|
  {
    hide Deviations, Learn, Max;
    if xs != [] {
      WarmupIsBatch(b, xs[..|xs| - 1]);
      WelfordStep(xs);
      LearnWarm(LearnAll(Cleared(b), xs[..|xs| - 1]), xs[|xs| - 1], Mean(xs));
    } else {
      NoDeviations();
    }
  }

  // ----- Tracking

  predicate Tracking(b: Baseline) { b.nUpdates >= b.warmupN }

  lemma {:induction false} LearnAllSplits(b: Baseline, xs: seq<real>, ys: seq<real>)
    ensures LearnAll(b, xs + ys) == LearnAll(LearnAll(b, xs), ys)
    decreases |ys|
  {
    hide Learn;
    if ys == [] {
      assert xs + ys == xs;
    } else {
      LearnAllSplits(b, xs, ys[..|ys| - 1]);
      assert (xs + ys)[..|xs + ys| - 1] == xs + ys[..|ys| - 1];
    }
  }

  /** The weighted variance about c exceeds the one about d by (c - d)(c + d - 2 mean). */
  lemma {:induction false} WeightedVarianceShift(alpha: real, seed: real, spread: real, xs: seq<real>, c: real, d: real)
    ensures WeightedVariance(alpha, seed, spread, xs, c)
         == WeightedVariance(alpha, seed, spread, xs, d) + Offset(c, d, WeightedMean(alpha, seed, xs))
    decreases |xs|
  {
    hide SquaredError, Offset;
    if xs == [] {
      OffsetOfError(c, d, seed);
    } else {
      var prefix, x := xs[..|xs| - 1], xs[|xs| - 1];
      WeightedVarianceShift(alpha, seed, spread, prefix, c, d);
      OffsetOfError(c, d, x);
      OffsetMixes(alpha, c, d, WeightedMean(alpha, seed, prefix), x, WeightedMean(alpha, seed, xs));
      Mix(alpha, WeightedVariance(alpha, seed, spread, prefix, d), Offset(c, d, WeightedMean(alpha, seed, prefix)),
          SquaredError(x, d), Offset(c, d, x));
    }
  }

  function Offset(c: real, d: real, m: real): real { (c - d) * (c + d - 2.0 * m) }

  lemma OffsetOfError(c: real, d: real, x: real)
    ensures SquaredError(x, c) == SquaredError(x, d) + Offset(c, d, x)
  {
  }

  lemma OffsetMixes(alpha: real, c: real, d: real, m: real, x: real, m': real)
    requires m' == (1.0 - alpha) * m + alpha * x
    ensures (1.0 - alpha) * Offset(c, d, m) + alpha * Offset(c, d, x) == Offset(c, d, m')
  {
  }

  lemma Mix(alpha: real, u: real, v: real, w: real, z: real)
    ensures (1.0 - alpha) * (u + v) + alpha * (w + z) == ((1.0 - alpha) * u + alpha * w) + ((1.0 - alpha) * v + alpha * z)
  {
  }

  /** One tracking step maps the weighted mean and the weighted variance about it to themselves. */
  lemma TrackingStep(alpha: real, seed: real, spread: real, xs: seq<real>)
    requires xs != []
    ensures var prefix, x := xs[..|xs| - 1], xs[|xs| - 1];
            var m, m' := WeightedMean(alpha, seed, prefix), WeightedMean(alpha, seed, xs);
            && m' == m + alpha * (x - m)
            && WeightedVariance(alpha, seed, spread, xs, m')
               == DecayedVariance(alpha, WeightedVariance(alpha, seed, spread, prefix, m), x - m)
  {
    hide SquaredError, Offset, DecayedVariance;
    var prefix, x := xs[..|xs| - 1], xs[|xs| - 1];
    var m, m' := WeightedMean(alpha, seed, prefix), WeightedMean(alpha, seed, xs);
    WeightedVarianceShift(alpha, seed, spread, prefix, m', m);
    TrackingScalars(alpha, m, m', x, WeightedVariance(alpha, seed, spread, prefix, m),
                    WeightedVariance(alpha, seed, spread, prefix, m'));
  }

  lemma TrackingScalars(alpha: real, m: real, m': real, x: real, v: real, w: real)
    requires m' == (1.0 - alpha) * m + alpha * x && w == v + Offset(m', m, m)
    ensures (1.0 - alpha) * w + alpha * SquaredError(x, m') == DecayedVariance(alpha, v, x - m)
  {
    var delta := x - m;
    assert m' - m == alpha * delta && x - m' == (1.0 - alpha) * delta;
    assert Offset(m', m, m) == (alpha * delta) * (alpha * delta);
    assert SquaredError(x, m') == ((1.0 - alpha) * delta) * ((1.0 - alpha) * delta);
  }

  /** The weighted variance about the weighted mean, from a seed state and the samples after it. */
  function TrackedVariance(b: Baseline, xs: seq<real>): real {
    WeightedVariance(b.alpha, b.mean, b.variance, xs, WeightedMean(b.alpha, b.mean, xs))
  }

  lemma LearnTracking(b: Baseline, x: real, delta: real)
    requires Tracking(b) && delta == x - b.mean
    ensures Learn(b, x) == b.(nUpdates := b.nUpdates + 1, mean := b.mean + b.alpha * delta,
                              variance := Max(DecayedVariance(b.alpha, b.variance, delta), FLOOR))
  {
    hide DecayedVariance, Max;
  }

  /** While tracking, the mean is the weighted mean of the samples since the seed. */
  lemma {:induction false} TrackingMean(b: Baseline, xs: seq<real>)
    requires Tracking(b)
    ensures var s := LearnAll(b, xs);
            && s.mean == WeightedMean(b.alpha, b.mean, xs) && s.nUpdates == b.nUpdates + |xs|
            && s.alpha == b.alpha && s.warmupN == b.warmupN
    decreases |xs|
  {
    hide Learn, DecayedVariance, WeightedVariance, Max;
    if xs != [] {
      TrackingMean(b, xs[..|xs| - 1]);
      var before, x := LearnAll(b, xs[..|xs| - 1]), xs[|xs| - 1];
      LearnTracking(before, x, x - before.mean);
      TrackingStep(b.alpha, b.mean, b.variance, xs);
    }
  }

  /** The variance floor has not raised the variance after any of the samples. */
  predicate FloorInactive(b: Baseline, xs: seq<real>) {
    forall k :: 1 <= k <= |xs| ==> TrackedVariance(b, xs[..k]) >= FLOOR
  }

  lemma TrackingVarianceStep(b: Baseline, xs: seq<real>)
    requires Tracking(b) && xs != []
    ensures var before := LearnAll(b, xs[..|xs| - 1]); var after := LearnAll(b, xs);
            && after.variance >= FLOOR
            && (before.variance == TrackedVariance(b, xs[..|xs| - 1]) ==>
                  after.variance == Max(TrackedVariance(b, xs), FLOOR))
            && (before.variance >= TrackedVariance(b, xs[..|xs| - 1]) && b.alpha <= 1.0 ==>
                  after.variance >= TrackedVariance(b, xs))
  {
    hide Learn, WeightedVariance, WeightedMean, DecayedVariance;
    var before := LearnAll(b, xs[..|xs| - 1]);
    TrackingMean(b, xs[..|xs| - 1]);
    TrackingStep(b.alpha, b.mean, b.variance, xs);
    LearnTracking(before, xs[|xs| - 1], xs[|xs| - 1] - before.mean);
    if before.variance >= TrackedVariance(b, xs[..|xs| - 1]) && b.alpha <= 1.0 {
      DecayMonotone(b.alpha, TrackedVariance(b, xs[..|xs| - 1]), before.variance, xs[|xs| - 1] - before.mean);
    }
  }

  lemma DecayMonotone(alpha: real, u: real, v: real, delta: real)
    requires alpha <= 1.0 && v >= u
    ensures DecayedVariance(alpha, v, delta) >= DecayedVariance(alpha, u, delta)
  {
    NonNegativeProduct(1.0 - alpha, v - u, (1.0 - alpha) * (v - u));
  }

  /** While tracking, the variance is never below the weighted variance about the mean, and equals it
      at every sample exactly when the floor never acts. */
  lemma {:induction false} TrackingVariance(b: Baseline, xs: seq<real>)
    requires Tracking(b)
    ensures (forall k :: 0 <= k <= |xs| ==> LearnAll(b, xs[..k]).variance == TrackedVariance(b, xs[..k]))
            <==> FloorInactive(b, xs)
    ensures b.alpha <= 1.0 ==> LearnAll(b, xs).variance >= TrackedVariance(b, xs)
    decreases |xs|
  {
    hide LearnAll, TrackedVariance;
    if xs == [] {
      TrackingStart(b);
      assert xs[..0] == [];
    } else {
      var prefix := xs[..|xs| - 1];
      TrackingVariance(b, prefix);
      TrackingVarianceStep(b, xs);
      assert xs[..|xs|] == xs;
      assert forall k :: 0 <= k <= |prefix| ==> prefix[..k] == xs[..k];
      assert prefix[..|prefix|] == prefix;
    }
  }

  lemma TrackingStart(b: Baseline)
    ensures LearnAll(b, []).variance == TrackedVariance(b, [])
  {
  }

  // ----- From a reset

  /** The state a warmed-up baseline tracks from: the true mean and the floored sample variance of the
      warm-up samples, or the initial values when there is no warm-up. */
  function Seeded(b: Baseline, warmup: seq<real>): Baseline {
    var v := if warmup == [] then FLOOR else Max(Deviations(warmup, Mean(warmup)) / Degrees(|warmup|), FLOOR);
    Cleared(b).(wN := |warmup|, wMean := Mean(warmup), wM2 := Deviations(warmup, Mean(warmup)),
              mean := Mean(warmup), variance := v, nUpdates := |warmup|)
  }

  /** Everything the fields hold after a reset and any healthy samples. */
  lemma BaselineIsBatch(b: Baseline, xs: seq<real>)
    ensures var s, w := LearnAll(Cleared(b), xs), if b.warmupN < 0 then 0 else b.warmupN;
            && s.nUpdates == |xs|
            && (|xs| < w ==> CurrentMean(s) == Mean(xs) && s.wM2 == Deviations(xs, Mean(xs)))
            && (|xs| >= w ==>
                  var seed := Seeded(b, xs[..w]);
                  && LearnAll(Cleared(b), xs[..w]) == seed
                  && s == LearnAll(seed, xs[w..])
                  && CurrentMean(s) == WeightedMean(b.alpha, Mean(xs[..w]), xs[w..])
                  && (FloorInactive(seed, xs[w..]) ==> CurrentVariance(s) == TrackedVariance(seed, xs[w..])))
  {
    hide Learn, LearnAll, Deviations, Mean, WeightedMean, TrackedVariance, FloorInactive;
    var w := if b.warmupN < 0 then 0 else b.warmupN;
    if |xs| < w {
      WarmupIsBatch(b, xs);
    } else {
      WarmupReachesSeed(b, xs[..w]);
      LearnAllSplits(Cleared(b), xs[..w], xs[w..]);
      assert xs == xs[..w] + xs[w..];
      TrackingMean(Seeded(b, xs[..w]), xs[w..]);
      TrackingVariance(Seeded(b, xs[..w]), xs[w..]);
      assert xs[w..][..|xs| - w] == xs[w..];
    }
  }

  lemma WarmupReachesSeed(b: Baseline, warmup: seq<real>)
    requires |warmup| == if b.warmupN < 0 then 0 else b.warmupN
    ensures LearnAll(Cleared(b), warmup) == Seeded(b, warmup)
  {
    hide Learn, Deviations, Max;
    if b.warmupN >= 0 {
      WarmupIsBatch(b, warmup);
    }
    NoDeviations();
  }

  // ----- Bounds

  predicate Within(xs: seq<real>, lo: real, hi: real) { forall i :: 0 <= i < |xs| ==> lo <= xs[i] <= hi }

  lemma {:induction false} SumWithin(xs: seq<real>, lo: real, hi: real)
    requires Within(xs, lo, hi)
    ensures |xs| as real * lo <= Sum(xs) <= |xs| as real * hi
    decreases |xs|
  {
    if xs != [] {
      var n := |xs| as real;
      SumWithin(xs[..|xs| - 1], lo, hi);
      assert n * lo == (n - 1.0) * lo + lo && n * hi == (n - 1.0) * hi + hi;
    }
  }

  lemma QuotientWithin(n: real, sum: real, q: real, lo: real, hi: real)
    requires n > 0.0 && n * q == sum && n * lo <= sum <= n * hi
    ensures lo <= q <= hi
  {
    PositiveFactor(n, q - lo, sum - n * lo);
    PositiveFactor(n, hi - q, n * hi - sum);
  }

  lemma MixWithin(alpha: real, u: real, x: real, m: real, lo: real, hi: real)
    requires 0.0 <= alpha <= 1.0 && lo <= u <= hi && lo <= x <= hi && m == (1.0 - alpha) * u + alpha * x
    ensures lo <= m <= hi
  {
    NonNegativeProduct(1.0 - alpha, u - lo, (1.0 - alpha) * (u - lo));
    NonNegativeProduct(1.0 - alpha, hi - u, (1.0 - alpha) * (hi - u));
    NonNegativeProduct(alpha, x - lo, alpha * (x - lo));
    NonNegativeProduct(alpha, hi - x, alpha * (hi - x));
  }

  lemma {:induction false} WeightedMeanWithin(alpha: real, seed: real, xs: seq<real>, lo: real, hi: real)
    requires 0.0 <= alpha <= 1.0 && lo <= seed <= hi && Within(xs, lo, hi)
    ensures lo <= WeightedMean(alpha, seed, xs) <= hi
    decreases |xs|
  {
    if xs != [] {
      var prefix, x := xs[..|xs| - 1], xs[|xs| - 1];
      WeightedMeanWithin(alpha, seed, prefix, lo, hi);
      MixWithin(alpha, WeightedMean(alpha, seed, prefix), x, WeightedMean(alpha, seed, xs), lo, hi);
    }
  }

  lemma AverageWithin(xs: seq<real>, lo: real, hi: real)
    requires xs != [] && Within(xs, lo, hi)
    ensures lo <= Mean(xs) <= hi
  {
    hide Sum, Mean, Within;
    SumWithin(xs, lo, hi);
    MeanTimesCount(xs);
    QuotientWithin(|xs| as real, Sum(xs), Mean(xs), lo, hi);
  }

  /** The values the reported mean is mixed from: the healthy samples and, without a warm-up, the initial 0. */
  predicate SourcesWithin(b: Baseline, xs: seq<real>, lo: real, hi: real) {
    xs != [] && Within(xs, lo, hi) && (b.warmupN >= 1 || lo <= 0.0 <= hi)
  }

  lemma MeanWithinSamples(b: Baseline, xs: seq<real>, lo: real, hi: real)
    requires SourcesWithin(b, xs, lo, hi) && 0.0 <= b.alpha <= 1.0
    ensures lo <= CurrentMean(LearnAll(Cleared(b), xs)) <= hi
  {
    hide LearnAll, TrackedVariance, FloorInactive, Deviations, WeightedMean, Seeded, Sum;
    BaselineIsBatch(b, xs);
    var w := if b.warmupN < 0 then 0 else b.warmupN;
    var warm := if |xs| < w then xs else xs[..w];
    if warm != [] {
      AverageWithin(warm, lo, hi);
    }
    if |xs| >= w {
      WeightedMeanWithin(b.alpha, Mean(warm), xs[w..], lo, hi);
    }
  }

  /** After a warm-up of zeros, a single 1 moves the mean to alpha. */
  lemma MeanAfterJump(b: Baseline, zeros: seq<real>)
    requires |zeros| == (if b.warmupN < 0 then 0 else b.warmupN) && Within(zeros, 0.0, 0.0)
    ensures CurrentMean(LearnAll(Cleared(b), zeros + [1.0])) == b.alpha
  {
    hide LearnAll, TrackedVariance, FloorInactive, Deviations, Seeded;
    var xs, w := zeros + [1.0], |zeros|;
    BaselineIsBatch(b, xs);
    assert xs[..w] == zeros && xs[w..] == [1.0];
    if zeros != [] {
      AverageWithin(zeros, 0.0, 0.0);
    }
    assert [1.0][..0] == [];
  }

  /** The reported mean stays within the range of the healthy samples, for all samples, exactly when alpha is a
      weight. */
  lemma MeanBoundedExactly(b: Baseline)
    ensures (forall xs, lo, hi :: SourcesWithin(b, xs, lo, hi) ==> lo <= CurrentMean(LearnAll(Cleared(b), xs)) <= hi)
            <==> 0.0 <= b.alpha <= 1.0
  {
    hide LearnAll, CurrentMean;
    if 0.0 <= b.alpha <= 1.0 {
      forall xs, lo, hi | SourcesWithin(b, xs, lo, hi) ensures lo <= CurrentMean(LearnAll(Cleared(b), xs)) <= hi {
        MeanWithinSamples(b, xs, lo, hi);
      }
    } else {
      var zeros := seq(if b.warmupN < 0 then 0 else b.warmupN, _ => 0.0);
      MeanAfterJump(b, zeros);
      assert SourcesWithin(b, zeros + [1.0], 0.0, 1.0);
    }
  }

  /** The tracked variance never falls below the floor, so no z-score divides by less than 1e-6. */
  lemma {:induction false} VarianceAboveFloor(b: Baseline, xs: seq<real>)
    requires b.variance >= 0.000001
    ensures LearnAll(b, xs).variance >= 0.000001
    decreases |xs|
  {
    if xs != [] {
      VarianceAboveFloor(b, xs[..|xs| - 1]);
    }
  }

  // ----- The z-score

  lemma StdIs(sqrt: real -> real, b: Baseline)
    requires IsSqrt(sqrt) && CurrentVariance(b) >= 0.0
    ensures var std := CurrentStd(sqrt, b);
            if CurrentVariance(b) >= 0.000001 * 0.000001 then std > 0.0 && std * std == CurrentVariance(b)
            else std == 0.000001
  {
    var v := CurrentVariance(b);
    RootAgainst(sqrt(v), v, FLOOR);
  }

  lemma RootAgainst(r: real, v: real, f: real)
    requires r >= 0.0 && r * r == v && f > 0.0
    ensures r >= f <==> v >= f * f
  {
    PositiveFactor(r + f, r - f, (r + f) * (r - f));
  }

  /** After warm-up the z-score has the sign of the deviation, and its square times the variance is the squared
      deviation; where the variance is below the square of the floor, the floor is the divisor. */
  lemma ScoreIsStandardised(sqrt: real -> real, b: Baseline, x: real)
    requires IsSqrt(sqrt) && CurrentVariance(b) >= 0.0 && b.nUpdates >= b.warmupN
    ensures var z, d := Score(sqrt, b, x), x - CurrentMean(b);
            && (z > 0.0 <==> d > 0.0) && (z < 0.0 <==> d < 0.0)
            && (if CurrentVariance(b) >= 0.000001 * 0.000001 then z * z * CurrentVariance(b) == d * d
                else z * 0.000001 == d)
  {
    hide CurrentStd, CurrentVariance, CurrentMean, IsSqrt;
    StdIs(sqrt, b);
    ScoreScalars(CurrentStd(sqrt, b), CurrentVariance(b), x - CurrentMean(b), Score(sqrt, b, x));
  }

  lemma ScoreScalars(std: real, v: real, d: real, z: real)
    requires std > 0.0 && z == d / std
    ensures (z > 0.0 <==> d > 0.0) && (z < 0.0 <==> d < 0.0) && z * std == d
    ensures std * std == v ==> z * z * v == d * d
  {
    assert std * z == d;
    PositiveFactor(std, z, d);
    PositiveFactor(std, -z, -d);
    if std * std == v {
      assert z * z * v == (z * std) * (z * std);
    }
  }

  /** The seed of the tracking phase: n - 1 times the variance is the sum of the squared deviations, unless the
      floor raised it; with one sample the divisor is one. */
  lemma SeedIsSampleVariance(b: Baseline, warmup: seq<real>)
    requires warmup != [] && |warmup| == b.warmupN
    ensures var v := LearnAll(Cleared(b), warmup).variance;
            v > 0.000001 ==> (if |warmup| == 1 then 1 else |warmup| - 1) as real * v == Deviations(warmup, Mean(warmup))
  {
    hide LearnAll, Deviations, Mean;
    WarmupIsBatch(b, warmup);
  }

  /** Until then the baseline reports the sample variance of what it has seen, and the floor for fewer than two samples. */
  lemma WarmupVariance(b: Baseline, xs: seq<real>)
    requires |xs| < b.warmupN
    ensures var v := CurrentVariance(LearnAll(Cleared(b), xs));
            if |xs| >= 2 then (|xs| - 1) as real * v == Deviations(xs, Mean(xs)) else v == 0.000001
  {
    hide LearnAll, Deviations, Mean;
    WarmupIsBatch(b, xs);
  }

  // ----- Runs with unhealthy frames and checkpoints

  datatype Sample = Sample(x: real, healthy: bool)

  function ObserveAll(b: Baseline, samples: seq<Sample>): Baseline
    decreases |samples|
  {
    if samples == [] then b else
      var last := samples[|samples| - 1];
      Observe(ObserveAll(b, samples[..|samples| - 1]), last.x, last.healthy)
  }

  function Healthy(samples: seq<Sample>): seq<real>
    decreases |samples|
  {
    if samples == [] then [] else
      var last := samples[|samples| - 1];
      Healthy(samples[..|samples| - 1]) + (if last.healthy then [last.x] else [])
  }

  /** WARN and FAULT frames leave no trace: the state is the one learned from the healthy samples. */
  lemma {:induction false} OnlyHealthySamplesCount(b: Baseline, samples: seq<Sample>)
    ensures ObserveAll(b, samples) == LearnAll(b, Healthy(samples))
    decreases |samples|
  {
    hide Learn;
    if samples != [] {
      var prefix, last := samples[..|samples| - 1], samples[|samples| - 1];
      OnlyHealthySamplesCount(b, prefix);
      if last.healthy {
        assert Healthy(samples)[..|Healthy(samples)| - 1] == Healthy(prefix);
      } else {
        assert Healthy(samples) == Healthy(prefix);
      }
    }
  }

  /** The keys of `state_dict`, each of which a stored snapshot may lack. */
  datatype Snapshot = Snapshot(alpha: Option<real>, warmupN: Option<int>, wN: Option<nat>, wMean: Option<real>,
                               wM2: Option<real>, mean: Option<real>, variance: Option<real>, nUpdates: Option<nat>)

  function Save(b: Baseline): Snapshot {
    Snapshot(Some(b.alpha), Some(b.warmupN), Some(b.wN), Some(b.wMean), Some(b.wM2), Some(b.mean), Some(b.variance),
             Some(b.nUpdates))
  }

  function Load(b: Baseline, d: Snapshot): Baseline {
    Baseline(d.alpha.GetOr(b.alpha), d.warmupN.GetOr(b.warmupN), d.wN.GetOr(0), d.wMean.GetOr(0.0),
             d.wM2.GetOr(0.0), d.mean.GetOr(0.0), d.variance.GetOr(FLOOR), d.nUpdates.GetOr(0))
  }

  /** Restarting from a checkpoint taken anywhere in a run changes nothing that follows. */
  lemma {:induction false} CheckpointIsTransparent(b: Baseline, other: Baseline, before: seq<Sample>, after: seq<Sample>)
    ensures ObserveAll(Load(other, Save(ObserveAll(b, before))), after) == ObserveAll(b, before + after)
    decreases |after|
  {
    hide Observe;
    if after == [] {
      assert before + after == before;
    } else {
      CheckpointIsTransparent(b, other, before, after[..|after| - 1]);
      assert (before + after)[..|before + after| - 1] == before + after[..|after| - 1];
    }
  }

  class AdaptiveBaseline {
    const sqrt: real -> real
    var alpha: real
    var warmupN: int
    var wN: nat
    var wMean: real
    var wM2: real
    var mean: real
    var variance: real
    var nUpdates: nat

    function State(): Baseline
      reads this
    {
      Baseline(alpha, warmupN, wN, wMean, wM2, mean, variance, nUpdates)
    }

    constructor (sqrt: real -> real, alpha: real, warmupN: int)
      ensures this.sqrt == sqrt && this.alpha == alpha && this.warmupN == warmupN
      ensures State() == Cleared(State())
    {
      this.sqrt, this.alpha, this.warmupN := sqrt, alpha, warmupN;
      wN, wMean, wM2 := 0, 0.0, 0.0;
      mean, variance, nUpdates := 0.0, FLOOR, 0;
    }

    method Update(x: real, healthy: bool)
      modifies this
      ensures State() == Observe(old(State()), x, healthy)
      ensures !healthy ==> State() == old(State())
    {
      if !healthy {
        return;
      }
      nUpdates := nUpdates + 1;
      if nUpdates <= warmupN {
        wN := wN + 1;
        var delta := x - wMean;
        wMean := wMean + delta / wN as real;
        wM2 := wM2 + delta * (x - wMean);
        if nUpdates == warmupN {
          mean := wMean;
          variance := Max(wM2 / Degrees(wN), FLOOR);
        }
      } else {
        var delta := x - mean;
        mean := mean + alpha * delta;
        variance := DecayedVariance(alpha, variance, delta);
        variance := Max(variance, FLOOR);
      }
    }

    /** The signed deviation in standard deviations, zero before warm-up ends. */
    method ZScore(x: real) returns (z: real)
      ensures z == Score(sqrt, State(), x)
      ensures nUpdates >= warmupN ==> z * CurrentStd(sqrt, State()) == x - CurrentMean(State())
    {
      if nUpdates < warmupN {
        return 0.0;
      }
      z := (x - CurrentMean(State())) / CurrentStd(sqrt, State());
    }

    /** After warm-up, the value whose z-score is k. */
    method Threshold(k: real) returns (t: real)
      ensures nUpdates >= warmupN ==> Score(sqrt, State(), t) == k
    {
      t := CurrentMean(State()) + k * CurrentStd(sqrt, State());
      ThresholdScore(CurrentMean(State()), CurrentStd(sqrt, State()), k, t);
    }

    method Reset()
      modifies this
      ensures State() == Cleared(old(State()))
    {
      wN, wMean, wM2 := 0, 0.0, 0.0;
      mean, variance, nUpdates := 0.0, FLOOR, 0;
    }

    method StateDict() returns (d: Snapshot)
      ensures d == Save(State())
    {
      d := Snapshot(Some(alpha), Some(warmupN), Some(wN), Some(wMean), Some(wM2), Some(mean), Some(variance), Some(nUpdates));
    }

    method LoadStateDict(d: Snapshot)
      modifies this
      ensures State() == Load(old(State()), d)
    {
      alpha, warmupN := d.alpha.GetOr(alpha), d.warmupN.GetOr(warmupN);
      wN, wMean, wM2 := d.wN.GetOr(0), d.wMean.GetOr(0.0), d.wM2.GetOr(0.0);
      mean, variance, nUpdates := d.mean.GetOr(0.0), d.variance.GetOr(FLOOR), d.nUpdates.GetOr(0);
    }
  }

  lemma ThresholdScore(mean: real, std: real, k: real, t: real)
    requires std > 0.0 && t == mean + k * std
    ensures (t - mean) / std == k
  {
    var q := (t - mean) / std;
    assert std * (q - k) == 0.0 by { assert std * q == t - mean; }
  }
}
