/** The mean of a sequence and its squared deviations from a point. */
module Moments {
  import opened RealMath

  function Mean(xs: seq<real>): real { if xs == [] then 0.0 else Sum(xs) / |xs| as real }

  function SquaredError(x: real, c: real): real { (x - c) * (x - c) }

  /** The sum of the squared deviations of the samples from `c`. */
  function Deviations(xs: seq<real>, c: real): real
    decreases |xs|
  {
    if xs == [] then 0.0 else Deviations(xs[..|xs| - 1], c) + SquaredError(xs[|xs| - 1], c)
  }

  /** How the squared deviations of n samples change when their centre moves from c to d. */
  function Shift(n: real, sum: real, c: real, d: real): real {
    2.0 * (c - d) * (sum - n * c) + n * ((c - d) * (c - d))
  }

  lemma {:induction false} DeviationsShift(xs: seq<real>, c: real, d: real)
    ensures Deviations(xs, d) == Deviations(xs, c) + Shift(|xs| as real, Sum(xs), c, d)
    decreases |xs|
  {
    hide SquaredError, Shift;
    if xs == [] {
      NoShift(c, d);
    } else {
      var prefix := xs[..|xs| - 1];
      DeviationsShift(prefix, c, d);
      ShiftStep(|prefix| as real, Sum(prefix), xs[|xs| - 1], c, d);
    }
  }

  lemma NoShift(c: real, d: real)
    ensures Shift(0.0, 0.0, c, d) == 0.0
  {
  }

  lemma ShiftStep(n: real, sum: real, x: real, c: real, d: real)
    ensures Shift(n, sum, c, d) + SquaredError(x, d) == SquaredError(x, c) + Shift(n + 1.0, sum + x, c, d)
  {
  }

  lemma MeanTimesCount(xs: seq<real>)
    ensures |xs| as real * Mean(xs) == Sum(xs)
  {
  }

  lemma NoDeviations()
    ensures Deviations([], 0.0) == 0.0
  {
  }

  lemma {:induction false} DeviationsNonNegative(xs: seq<real>, c: real)
    ensures Deviations(xs, c) >= 0.0
    decreases |xs|
  {
    if xs != [] {
      DeviationsNonNegative(xs[..|xs| - 1], c);
      assert SquaredError(xs[|xs| - 1], c) == Square(xs[|xs| - 1] - c);
    }
  }
}
