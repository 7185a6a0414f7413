/** The calibration behind the two-sided z-score: the first frames are collected, then their mean and standard
    deviation stand until a drift or the adaptive baselines replace them. */
module Calibrations {
  import opened Moments
  import opened RealMath

  const CAL_FRAMES := 30
  const STD_OFFSET := 0.000001

  type Positive = r: real | r > 0.0 witness 1.0

  /** The two features that are calibrated. */
  datatype Features = Features(rms: real, kurtosis: real)

  datatype Calibration = Collecting(buffer: seq<Features>)
                       | Calibrated(mean: Features, rmsStd: Positive, kurtosisStd: Positive)

  function Rms(fs: seq<Features>): (xs: seq<real>)
    ensures |xs| == |fs| && forall i :: 0 <= i < |fs| ==> xs[i] == fs[i].rms
  {
    seq(|fs|, i requires 0 <= i < |fs| => fs[i].rms)
  }

  function Kurtoses(fs: seq<Features>): (xs: seq<real>)
    ensures |xs| == |fs| && forall i :: 0 <= i < |fs| ==> xs[i] == fs[i].kurtosis
  {
    seq(|fs|, i requires 0 <= i < |fs| => fs[i].kurtosis)
  }

  /** The population standard deviation, kept off zero. */
  function OffsetStd(sqrt: real -> real, xs: seq<real>): Positive
    requires xs != [] && IsSqrt(sqrt)
  {
    DeviationsNonNegative(xs, Mean(xs));
    assert Deviations(xs, Mean(xs)) / |xs| as real >= 0.0;
    sqrt(Deviations(xs, Mean(xs)) / |xs| as real) + STD_OFFSET
  }

  function FromSamples(sqrt: real -> real, fs: seq<Features>): (c: Calibration)
    requires fs != [] && IsSqrt(sqrt)
    ensures c.Calibrated?
  {
    Calibrated(Features(Mean(Rms(fs)), Mean(Kurtoses(fs))), OffsetStd(sqrt, Rms(fs)), OffsetStd(sqrt, Kurtoses(fs)))
  }

  /** One frame's contribution before it is scored; once calibrated there is none. */
  function Collect(sqrt: real -> real, c: Calibration, f: Features): Calibration
    requires IsSqrt(sqrt)
  {
    if c.Calibrated? then c
    else if |c.buffer| + 1 >= CAL_FRAMES then FromSamples(sqrt, c.buffer + [f])
    else Collecting(c.buffer + [f])
  }

  /** The larger deviation, in standard deviations; zero before calibration. */
  function CalibrationZ(c: Calibration, f: Features): real {
    if c.Collecting? then 0.0
    else Max(Abs(f.rms - c.mean.rms) / c.rmsStd, Abs(f.kurtosis - c.mean.kurtosis) / c.kurtosisStd)
  }

  // ----- What the calibration holds

  /** The mean and the deviation of the samples: n times the mean is their sum, and n times the square of the
      deviation, less its offset, is the sum of their squared deviations from the mean. */
  ghost predicate Describes(xs: seq<real>, mean: real, std: real) {
    && |xs| as real * mean == Sum(xs)
    && std >= 0.000001
    && |xs| as real * ((std - 0.000001) * (std - 0.000001)) == Deviations(xs, mean)
  }

  lemma OffsetStdIs(sqrt: real -> real, xs: seq<real>)
    requires xs != [] && IsSqrt(sqrt)
    ensures Describes(xs, Mean(xs), OffsetStd(sqrt, xs))
  {
    hide Sum, Deviations, Mean;
    MeanTimesCount(xs);
    DeviationsNonNegative(xs, Mean(xs));
    var n, d := |xs| as real, Deviations(xs, Mean(xs));
    var v := d / n;
    assert v >= 0.0 && n * v == d;
    var r := sqrt(v);
    assert r >= 0.0 && r * r == v;
  }

  /** A calibration is that of the samples, feature by feature. */
  ghost predicate CalibratedOn(c: Calibration, fs: seq<Features>) {
    && c.Calibrated?
    && Describes(seq(|fs|, i requires 0 <= i < |fs| => fs[i].rms), c.mean.rms, c.rmsStd)
    && Describes(seq(|fs|, i requires 0 <= i < |fs| => fs[i].kurtosis), c.mean.kurtosis, c.kurtosisStd)
  }

  lemma SamplesCalibrate(sqrt: real -> real, fs: seq<Features>)
    requires fs != [] && IsSqrt(sqrt)
    ensures CalibratedOn(FromSamples(sqrt, fs), fs)
  {
    hide Describes, OffsetStd, Mean;
    OffsetStdIs(sqrt, Rms(fs));
    OffsetStdIs(sqrt, Kurtoses(fs));
    assert Rms(fs) == seq(|fs|, i requires 0 <= i < |fs| => fs[i].rms);
    assert Kurtoses(fs) == seq(|fs|, i requires 0 <= i < |fs| => fs[i].kurtosis);
  }

  /** The z-score is the larger of the two features' absolute deviations, in their own standard deviations. */
  lemma ZIsLargerDeviation(c: Calibration, f: Features)
    requires c.Calibrated?
    ensures var z := CalibrationZ(c, f);
            && z >= 0.0
            && -z * c.rmsStd <= f.rms - c.mean.rms <= z * c.rmsStd
            && -z * c.kurtosisStd <= f.kurtosis - c.mean.kurtosis <= z * c.kurtosisStd
            && (|| f.rms - c.mean.rms == z * c.rmsStd || f.rms - c.mean.rms == -z * c.rmsStd
                || f.kurtosis - c.mean.kurtosis == z * c.kurtosisStd || f.kurtosis - c.mean.kurtosis == -z * c.kurtosisStd)
  {
    var z, r, k := CalibrationZ(c, f), Abs(f.rms - c.mean.rms), Abs(f.kurtosis - c.mean.kurtosis);
    Deviation(r, c.rmsStd, z);
    Deviation(k, c.kurtosisStd, z);
  }

  lemma Deviation(a: real, d: real, z: real)
    requires a >= 0.0 && d > 0.0
    ensures a / d >= 0.0
    ensures z >= a / d <==> z * d >= a
    ensures z == a / d <==> z * d == a
  {
    var q := a / d;
    assert d * q == a;
    PositiveFactor(d, q, a);
    PositiveFactor(d, z - q, d * (z - q));
    if z * d == a {
      assert d * (z - q) == 0.0;
    }
  }
}
