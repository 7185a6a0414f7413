/** The scalar statistics of one sensor axis: a single pass gathers the power sums and the peaks, and closed
    formulas turn the sums into moments. */
module ScalarStats {
  import opened Moments
  import opened RealMath

  const VARIANCE_MIN := 0.000000000001
  const RMS_MIN := 0.00000001

  function Cubed(x: real): real { x * x * x }

  function Quartic(x: real): real { x * x * x * x }

  function CubedError(x: real, c: real): real { (x - c) * ((x - c) * (x - c)) }

  /** The sum of the cubed deviations of the samples from c. */
  function CubedDeviations(xs: seq<real>, c: real): real
    decreases |xs|
  {
    if xs == [] then 0.0 else CubedDeviations(xs[..|xs| - 1], c) + CubedError(xs[|xs| - 1], c)
  }

  function SquaresOf(xs: seq<real>): (qs: seq<real>)
    ensures |qs| == |xs| && forall i :: 0 <= i < |xs| ==> qs[i] == Square(xs[i])
  {
    seq(|xs|, i requires 0 <= i < |xs| => Square(xs[i]))
  }

  // ----- The power sums of a block

  function SumSquares(xs: seq<real>): real { Sum(SquaresOf(xs)) }

  function SumCubes(xs: seq<real>): real { CubedDeviations(xs, 0.0) }

  function SumQuads(xs: seq<real>): real { Sum(SquaresOf(SquaresOf(xs))) }

  // ----- The formulas on sums

  function RmsFromSumSq(sqrt: real -> real, sumSq: real, n: nat): real
    requires n > 0
  {
    sqrt(sumSq / n as real)
  }

  function CrestFactor(peak: real, rms: real): real {
    if rms > RMS_MIN then peak / rms else 0.0
  }

  function KurtosisFromSums(sumSq: real, sum4: real, n: nat, fallback: real): real
    requires n > 0
  {
    var v := sumSq / n as real;
    if v > VARIANCE_MIN then (sum4 / n as real) / Square(v) - 3.0 else fallback
  }

  function VarianceFromSums(sum: real, sumSq: real, n: nat): real
    requires n > 0
  {
    var mean := sum / n as real;
    sumSq / n as real - mean * mean
  }

  function StdFromSums(sqrt: real -> real, sum: real, sumSq: real, n: nat): real
    requires n > 0
  {
    var v := VarianceFromSums(sum, sumSq, n);
    if v > 0.0 then sqrt(v) else 0.0
  }

  function ThirdMomentFromSums(sum: real, sumSq: real, sumCube: real, n: nat): real
    requires n > 0
  {
    var mean := sum / n as real;
    sumCube / n as real - 3.0 * mean * (sumSq / n as real) + 2.0 * mean * mean * mean
  }

  lemma RootPositive(sqrt: real -> real, v: real)
    requires IsSqrt(sqrt) && v > 0.0
    ensures sqrt(v) > 0.0 && Square(sqrt(v)) == v && Cubed(sqrt(v)) > 0.0
  {
    var s := sqrt(v);
    assert s >= 0.0 && s * s == v;
    PositiveProduct(v, s, v * s);
  }

  function SkewnessFromSums(sqrt: real -> real, sum: real, sumSq: real, sumCube: real, n: nat, fallback: real): real
    requires n > 0 && IsSqrt(sqrt)
  {
    var v := VarianceFromSums(sum, sumSq, n);
    if v <= VARIANCE_MIN then fallback
    else
      RootPositive(sqrt, v);
      ThirdMomentFromSums(sum, sumSq, sumCube, n) / Cubed(sqrt(v))
  }

  // ----- Central moments

  /** What the cubed deviations of n samples exceed their sum of cubes by. */
  function CubeShift(n: real, s1: real, s2: real, c: real): real {
    3.0 * ((c * c) * s1) - 3.0 * (c * s2) - n * (c * c * c)
  }

  lemma CubeShiftStep(n: real, s1: real, s2: real, x: real, c: real)
    ensures CubeShift(n + 1.0, s1 + x, s2 + Square(x), c) == CubeShift(n, s1, s2, c) + (CubedError(x, c) - CubedError(x, 0.0))
    ensures CubeShift(0.0, 0.0, 0.0, c) == 0.0
  {
  }

  lemma SumsStep(xs: seq<real>)
    requires xs != []
    ensures SumSquares(xs) == SumSquares(xs[..|xs| - 1]) + Square(xs[|xs| - 1])
    ensures SumQuads(xs) == SumQuads(xs[..|xs| - 1]) + Square(Square(xs[|xs| - 1]))
  {
    hide Square;
    var prefix := xs[..|xs| - 1];
    assert SquaresOf(xs)[..|prefix|] == SquaresOf(prefix);
    assert SquaresOf(SquaresOf(xs))[..|prefix|] == SquaresOf(SquaresOf(prefix));
  }

  lemma {:induction false} CubesExpand(xs: seq<real>, c: real)
    ensures CubedDeviations(xs, c) == SumCubes(xs) + CubeShift(|xs| as real, Sum(xs), SumSquares(xs), c)
    decreases |xs|
  {
    hide Square, CubedError, CubeShift;
    if xs == [] {
      CubeShiftStep(0.0, 0.0, 0.0, 0.0, c);
    } else {
      var prefix := xs[..|xs| - 1];
      CubesExpand(prefix, c);
      CubeShiftStep(|prefix| as real, Sum(prefix), SumSquares(prefix), xs[|xs| - 1], c);
      SumsStep(xs);
    }
  }

  lemma {:induction false} DeviationsFromZero(xs: seq<real>)
    ensures Deviations(xs, 0.0) == SumSquares(xs)
    decreases |xs|
  {
    hide SumSquares;
    if xs == [] {
      NoSquares();
    } else {
      DeviationsFromZero(xs[..|xs| - 1]);
      SumsStep(xs);
    }
  }

  lemma NoSquares()
    ensures SumSquares([]) == 0.0 && SumQuads([]) == 0.0
  {
  }

  lemma DivideSums(n: real, s1: real, s2: real, s3: real, m: real)
    requires n > 0.0 && n * m == s1
    ensures s2 / n - m * m == (s2 + Shift(n, s1, 0.0, m)) / n
    ensures s3 / n - 3.0 * m * (s2 / n) + 2.0 * m * m * m == (s3 + CubeShift(n, s1, s2, m)) / n
  {
    var mm, mmm := m * m, m * m * m;
    assert Shift(n, s1, 0.0, m) == -(n * mm);
    assert CubeShift(n, s1, s2, m) == 2.0 * (n * mmm) - 3.0 * (m * s2);
    Divide(n, s2, mm);
    Divide(n, s3 + 2.0 * (n * mmm), 3.0 * m * (s2 / n));
    Divide(n, s3, -2.0 * mmm);
    assert n * (3.0 * m * (s2 / n)) == 3.0 * (m * s2);
  }

  lemma Divide(n: real, s: real, q: real)
    requires n > 0.0
    ensures (s - n * q) / n == s / n - q
  {
  }

  /** At the mean, the formulas on sums give the central moments exactly. */
  lemma SumsGiveCentralMoments(xs: seq<real>)
    requires xs != []
    ensures VarianceFromSums(Sum(xs), SumSquares(xs), |xs|) == Deviations(xs, Mean(xs)) / |xs| as real
    ensures ThirdMomentFromSums(Sum(xs), SumSquares(xs), SumCubes(xs), |xs|) == CubedDeviations(xs, Mean(xs)) / |xs| as real
  {
    hide Deviations, CubedDeviations, SumSquares, SumCubes, Sum, Shift, CubeShift;
    MeanTimesCount(xs);
    DeviationsShift(xs, 0.0, Mean(xs));
    DeviationsFromZero(xs);
    CubesExpand(xs, Mean(xs));
    DivideSums(|xs| as real, Sum(xs), SumSquares(xs), SumCubes(xs), Mean(xs));
  }

  // ----- Bounds

  lemma {:induction false} SumSquaresNonNegative(xs: seq<real>)
    ensures SumSquares(xs) >= 0.0 && SumQuads(xs) >= 0.0
    decreases |xs|
  {
    hide SumSquares, SumQuads;
    NoSquares();
    if xs != [] {
      SumSquaresNonNegative(xs[..|xs| - 1]);
      SumsStep(xs);
    }
  }

  /** The square of a sum is at most n times the sum of the squares. */
  lemma SquareOfSum(qs: seq<real>)
    ensures Square(Sum(qs)) <= |qs| as real * SumSquares(qs)
  {
    hide Sum, Deviations, SumSquares, Shift;
    if qs == [] {
      EmptySum();
    } else {
      var n, m := |qs| as real, Mean(qs);
      MeanTimesCount(qs);
      DeviationsShift(qs, 0.0, m);
      DeviationsFromZero(qs);
      DeviationsNonNegative(qs, m);
      ShiftAtMean(n, Sum(qs), m);
      NonNegativeProduct(n, Deviations(qs, m), n * Deviations(qs, m));
      assert n * Deviations(qs, m) == n * SumSquares(qs) + n * Shift(n, Sum(qs), 0.0, m);
    }
  }

  lemma EmptySum()
    ensures Sum([]) == 0.0
  {
  }

  lemma ShiftAtMean(n: real, s1: real, m: real)
    requires n * m == s1
    ensures n * Shift(n, s1, 0.0, m) == -Square(s1)
  {
    var mm := m * m;
    assert Shift(n, s1, 0.0, m) == -(n * mm);
    assert n * (n * mm) == s1 * s1;
  }

  /** The sum of the fourth powers is at most the square of the sum of the squares. */
  lemma {:induction false} QuadsBelowSquare(xs: seq<real>)
    ensures SumQuads(xs) <= Square(SumSquares(xs))
    decreases |xs|
  {
    hide SumSquares, SumQuads;
    if xs == [] {
      NoSquares();
    } else {
      var s, q := SumSquares(xs[..|xs| - 1]), Square(xs[|xs| - 1]);
      QuadsBelowSquare(xs[..|xs| - 1]);
      SumsStep(xs);
      SumSquaresNonNegative(xs[..|xs| - 1]);
      SquareOfTotal(s, q);
    }
  }

  lemma SquareOfTotal(s: real, q: real)
    requires s >= 0.0 && q >= 0.0
    ensures Square(s + q) >= Square(s) + Square(q)
  {
    NonNegativeProduct(s, q, s * q);
  }

  /** The quotient lies between the bounds that the products do. */
  lemma QuotientBetween(x: real, d: real, lo: real, hi: real)
    requires d > 0.0 && lo * d <= x <= hi * d
    ensures lo <= x / d <= hi
  {
    var q := x / d;
    assert q * d == x;
    PositiveFactor(d, q - lo, d * (q - lo));
    PositiveFactor(d, hi - q, d * (hi - q));
  }

  lemma SquarePositive(v: real)
    requires v > 0.0
    ensures Square(v) > 0.0
  {
  }

  /** Above the variance threshold the excess kurtosis of every block of n samples lies between -2 and
      n - 3. */
  lemma KurtosisBounds(xs: seq<real>, fallback: real)
    requires xs != []
    ensures var n, k := |xs|, KurtosisFromSums(SumSquares(xs), SumQuads(xs), |xs|, fallback);
            if SumSquares(xs) / n as real > VARIANCE_MIN then -2.0 <= k <= n as real - 3.0 else k == fallback
  {
    hide SumSquares, SumQuads, Square;
    var n, s2, s4 := |xs| as real, SumSquares(xs), SumQuads(xs);
    var v := s2 / n;
    if v > VARIANCE_MIN {
      SquareOfSum(SquaresOf(xs));
      QuadsBelowSquare(xs);
      SumsOfSquares(xs);
      SquarePositive(v);
      MomentRatio(n, s2, s4, v);
      QuotientBetween(s4 / n, Square(v), 1.0, n);
    }
  }

  lemma SumsOfSquares(xs: seq<real>)
    ensures Sum(SquaresOf(xs)) == SumSquares(xs) && SumSquares(SquaresOf(xs)) == SumQuads(xs)
  {
  }

  lemma MomentRatio(n: real, s2: real, s4: real, v: real)
    requires n >= 1.0 && v == s2 / n && Square(s2) <= n * s4 && s4 <= Square(s2)
    ensures 1.0 * Square(v) <= s4 / n <= n * Square(v)
  {
    var vv, q := Square(v), s4 / n;
    assert n * v == s2 && n * q == s4;
    assert Square(s2) == n * (n * vv);
    PositiveFactor(n, n * q - n * vv, n * (n * q - n * vv));
    PositiveFactor(n, q - vv, n * (q - vv));
    PositiveFactor(n, n * vv - q, n * (n * vv - q));
  }

  // ----- The kurtosis and the mean

  function QuarticError(x: real, c: real): real { Quartic(x - c) }

  /** The sum of the fourth powers of the deviations from c. */
  function QuarticDeviations(xs: seq<real>, c: real): real
    decreases |xs|
  {
    if xs == [] then 0.0 else QuarticDeviations(xs[..|xs| - 1], c) + QuarticError(xs[|xs| - 1], c)
  }

  /** What the sum of the fourth powers exceeds the fourth deviations from c by. */
  function QuarticShift(n: real, s1: real, d2: real, d3: real, c: real): real {
    Combined(n, s1, d2, d3, c, c * c, c * c * c, c * c * c * c)
  }

  function Combined(n: real, s1: real, d2: real, d3: real, c: real, cc: real, ccc: real, cccc: real): real {
    4.0 * (c * d3) + 6.0 * (cc * d2) + 4.0 * (ccc * (s1 - n * c)) + n * cccc
  }

  lemma QuarticShiftStep(n: real, s1: real, d2: real, d3: real, x: real, c: real)
    ensures QuarticShift(n + 1.0, s1 + x, d2 + SquaredError(x, c), d3 + CubedError(x, c), c)
         == QuarticShift(n, s1, d2, d3, c) + (Quartic(x) - QuarticError(x, c))
    ensures QuarticShift(0.0, 0.0, 0.0, 0.0, c) == 0.0
  {
    hide Combined, Quartic, SquaredError, CubedError;
    var d, e2, e3 := x - c, SquaredError(x, c), CubedError(x, c);
    ErrorsAre(x, c);
    QuarticBinomial(x, d, e2, e3, c, c * c, c * c * c, c * c * c * c);
    CombinedNext(n, s1, d2, d3, x, e2, e3, c, c * c, c * c * c, c * c * c * c);
    NothingCombined(c, c * c, c * c * c, c * c * c * c);
  }

  lemma ErrorsAre(x: real, c: real)
    ensures SquaredError(x, c) == (x - c) * (x - c) && CubedError(x, c) == (x - c) * ((x - c) * (x - c))
  {
  }

  lemma NothingCombined(c: real, cc: real, ccc: real, cccc: real)
    ensures Combined(0.0, 0.0, 0.0, 0.0, c, cc, ccc, cccc) == 0.0
  {
  }

  lemma QuarticBinomial(x: real, d: real, e2: real, e3: real, c: real, cc: real, ccc: real, cccc: real)
    requires x == d + c && e2 == d * d && e3 == d * (d * d) && cc == c * c && ccc == cc * c && cccc == ccc * c
    ensures Quartic(x) == Quartic(d) + 4.0 * (c * e3) + 6.0 * (cc * e2) + 4.0 * (ccc * d) + cccc
  {
    var s := x * x;
    assert s == e2 + 2.0 * (c * d) + cc;
    assert Quartic(x) == s * s && Quartic(d) == e2 * e2;
    assert s * s == e2 * e2 + 4.0 * (c * (d * e2)) + 6.0 * (cc * (d * d)) + 4.0 * (ccc * d) + cccc;
  }

  lemma CombinedNext(n: real, s1: real, d2: real, d3: real, x: real, e2: real, e3: real, c: real, cc: real, ccc: real, cccc: real)
    requires cccc == ccc * c
    ensures Combined(n + 1.0, s1 + x, d2 + e2, d3 + e3, c, cc, ccc, cccc)
         == Combined(n, s1, d2, d3, c, cc, ccc, cccc) + (4.0 * (c * e3) + 6.0 * (cc * e2) + 4.0 * (ccc * (x - c)) + cccc)
  {
  }

  lemma {:induction false} QuadsExpand(xs: seq<real>, c: real)
    ensures SumQuads(xs) == QuarticDeviations(xs, c)
                            + QuarticShift(|xs| as real, Sum(xs), Deviations(xs, c), CubedDeviations(xs, c), c)
    decreases |xs|
  {
    hide SumSquares, SumQuads, Square, Quartic, QuarticError, SquaredError, CubedError, QuarticShift;
    if xs == [] {
      NoSquares();
      QuarticShiftStep(0.0, 0.0, 0.0, 0.0, 0.0, c);
    } else {
      var prefix, x := xs[..|xs| - 1], xs[|xs| - 1];
      QuadsExpand(prefix, c);
      SumsStep(xs);
      QuadIs(x);
      QuarticShiftStep(|prefix| as real, Sum(prefix), Deviations(prefix, c), CubedDeviations(prefix, c), x, c);
    }
  }

  /** The central moments: the mean squared, cubed and fourth power of the deviation from the mean. */
  function M2(xs: seq<real>): real requires xs != [] { Deviations(xs, Mean(xs)) / |xs| as real }

  function M3(xs: seq<real>): real requires xs != [] { CubedDeviations(xs, Mean(xs)) / |xs| as real }

  function M4(xs: seq<real>): real requires xs != [] { QuarticDeviations(xs, Mean(xs)) / |xs| as real }

  /** The moments about zero in terms of the mean and the central moments. */
  lemma MomentsAboutZero(xs: seq<real>)
    requires xs != []
    ensures var n, mu := |xs| as real, Mean(xs);
            && SumSquares(xs) / n == M2(xs) + mu * mu
            && SumQuads(xs) / n == FourthAboutZero(mu, M2(xs), M3(xs), M4(xs))
  {
    hide Deviations, CubedDeviations, QuarticDeviations, SumSquares, SumQuads, Sum, Shift, Mean, QuarticShift;
    var n, mu := |xs| as real, Mean(xs);
    MeanTimesCount(xs);
    DeviationsShift(xs, mu, 0.0);
    DeviationsFromZero(xs);
    QuadsExpand(xs, mu);
    DivideMoments(n, Sum(xs), mu, Deviations(xs, mu), CubedDeviations(xs, mu), QuarticDeviations(xs, mu), M2(xs), M3(xs), M4(xs));
  }

  function FourthAboutZero(mu: real, m2: real, m3: real, m4: real): real {
    m4 + 4.0 * (mu * m3) + 6.0 * (mu * mu * m2) + mu * mu * mu * mu
  }

  lemma DivideMoments(n: real, s1: real, mu: real, d2: real, d3: real, d4: real, m2: real, m3: real, m4: real)
    requires n > 0.0 && n * mu == s1 && m2 == d2 / n && m3 == d3 / n && m4 == d4 / n
    ensures (d2 + Shift(n, s1, mu, 0.0)) / n == m2 + mu * mu
    ensures (d4 + QuarticShift(n, s1, d2, d3, mu)) / n == FourthAboutZero(mu, m2, m3, m4)
  {
    hide QuarticShift, FourthAboutZero, Shift;
    SecondShift(n, s1, mu, d2, m2);
    FourthShift(n, s1, mu, d2, d3, d4, m2, m3, m4);
    QuotientIs(n, d2 + Shift(n, s1, mu, 0.0), m2 + mu * mu);
    QuotientIs(n, d4 + QuarticShift(n, s1, d2, d3, mu), FourthAboutZero(mu, m2, m3, m4));
  }

  lemma SecondShift(n: real, s1: real, mu: real, d2: real, m2: real)
    requires n > 0.0 && n * mu == s1 && m2 == d2 / n
    ensures d2 + Shift(n, s1, mu, 0.0) == n * (m2 + mu * mu)
  {
    assert n * m2 == d2;
  }

  lemma FourthShift(n: real, s1: real, mu: real, d2: real, d3: real, d4: real, m2: real, m3: real, m4: real)
    requires n > 0.0 && n * mu == s1 && m2 == d2 / n && m3 == d3 / n && m4 == d4 / n
    ensures d4 + QuarticShift(n, s1, d2, d3, mu) == n * FourthAboutZero(mu, m2, m3, m4)
  {
    assert n * m2 == d2 && n * m3 == d3 && n * m4 == d4;
    var a, b, c := mu * m3, mu * mu * m2, mu * mu * mu * mu;
    assert mu * d3 == n * a && mu * mu * d2 == n * b;
  }

  lemma QuotientIs(n: real, x: real, q: real)
    requires n > 0.0 && x == n * q
    ensures x / n == q
  {
  }

  /** The excess kurtosis about the mean, with the same fallback for a block without variance. */
  function CentralKurtosis(xs: seq<real>, fallback: real): real
    requires xs != []
  {
    if M2(xs) > VARIANCE_MIN then M4(xs) / Square(M2(xs)) - 3.0 else fallback
  }

  function FromMoments(mu: real, m2: real, m3: real, m4: real, fallback: real): real {
    var v := m2 + mu * mu;
    if v > VARIANCE_MIN then FourthAboutZero(mu, m2, m3, m4) / Square(v) - 3.0 else fallback
  }

  /** The excess kurtosis that the code computes, in terms of the central moments. */
  lemma KurtosisIsAboutZero(xs: seq<real>, fallback: real)
    requires xs != []
    ensures KurtosisFromSums(SumSquares(xs), SumQuads(xs), |xs|, fallback)
         == FromMoments(Mean(xs), M2(xs), M3(xs), M4(xs), fallback)
  {
    hide SumSquares, SumQuads, M2, M3, M4, Mean, FourthAboutZero, Square;
    MomentsAboutZero(xs);
  }

  /** When the moments make the value about zero that about the mean. */
  predicate Agrees(mu: real, m2: real, m3: real, m4: real, fallback: real) {
    if m2 + mu * mu <= VARIANCE_MIN then true
    else if m2 <= VARIANCE_MIN then FourthAboutZero(mu, m2, m3, m4) == (fallback + 3.0) * Square(m2 + mu * mu)
    else mu == 0.0 || Excess(mu, m2, m3, m4) == 0.0
  }

  function Excess(mu: real, m2: real, m3: real, m4: real): real {
    4.0 * (m2 * m2 * m3) + 6.0 * (mu * (m2 * m2 * m2)) + mu * mu * mu * (m2 * m2) - m4 * (mu * (2.0 * m2 + mu * mu))
  }

  /** The code's value is the excess kurtosis about the mean exactly when the moments agree, in particular for
      every block whose mean is zero. */
  lemma KurtosisIsCentralExactly(xs: seq<real>, fallback: real)
    requires xs != []
    ensures KurtosisFromSums(SumSquares(xs), SumQuads(xs), |xs|, fallback) == CentralKurtosis(xs, fallback)
            <==> Agrees(Mean(xs), M2(xs), M3(xs), M4(xs), fallback)
    ensures Mean(xs) == 0.0 ==>
              KurtosisFromSums(SumSquares(xs), SumQuads(xs), |xs|, fallback) == CentralKurtosis(xs, fallback)
  {
    hide KurtosisFromSums, SumSquares, SumQuads, M2, M3, M4, Mean, FromMoments, Square, Agrees;
    KurtosisIsAboutZero(xs, fallback);
    var mu, m2, m3, m4 := Mean(xs), M2(xs), M3(xs), M4(xs);
    KurtosesAgree(mu, m2, m3, m4, fallback);
    AgreesAtZeroMean(m2, m3, m4, fallback);
  }

  lemma KurtosesAgree(mu: real, m2: real, m3: real, m4: real, fallback: real)
    ensures FromMoments(mu, m2, m3, m4, fallback)
            == (if m2 > VARIANCE_MIN then m4 / Square(m2) - 3.0 else fallback)
            <==> Agrees(mu, m2, m3, m4, fallback)
  {
    hide FourthAboutZero, Square, Excess;
    SquareSign(mu);
    var v, x := m2 + mu * mu, FourthAboutZero(mu, m2, m3, m4);
    if v <= VARIANCE_MIN {
      assert m2 <= VARIANCE_MIN;
    } else {
      SquarePositive(v);
      if m2 > VARIANCE_MIN {
        SquarePositive(m2);
        RatiosEqual(x, Square(v), m4, Square(m2));
        ExcessDecides(mu, m2, m3, m4);
      } else {
        RatioIs(x, Square(v), fallback + 3.0);
      }
    }
  }

  lemma AgreesAtZeroMean(m2: real, m3: real, m4: real, fallback: real)
    ensures Agrees(0.0, m2, m3, m4, fallback)
  {
  }

  lemma RatioIs(x: real, a: real, q: real)
    requires a > 0.0
    ensures x / a == q <==> x == q * a
  {
    assert a * (x / a) == x;
    if x == q * a {
      assert a * (x / a - q) == 0.0;
    }
  }

  lemma RatiosEqual(x: real, a: real, y: real, b: real)
    requires a > 0.0 && b > 0.0
    ensures x / a == y / b <==> x * b == y * a
  {
    var p, q := x / a, y / b;
    assert a * p == x && b * q == y;
    PositiveProduct(a, b, a * b);
    assert x * b - y * a == (a * b) * (p - q);
  }

  lemma ExcessDecides(mu: real, m2: real, m3: real, m4: real)
    ensures FourthAboutZero(mu, m2, m3, m4) * Square(m2) == m4 * Square(m2 + mu * mu)
            <==> mu == 0.0 || Excess(mu, m2, m3, m4) == 0.0
  {
    ExcessFactors(mu, mu * mu, m2, m2 * m2, m3, m4);
    var e := Excess(mu, m2, m3, m4);
    if mu != 0.0 && mu * e == 0.0 {
      ZeroFactor(mu, e);
    }
  }

  lemma ZeroFactor(x: real, y: real)
    requires x != 0.0 && x * y == 0.0
    ensures y == 0.0
  {
  }

  lemma ExcessFactors(mu: real, mu2: real, m2: real, m22: real, m3: real, m4: real)
    requires mu2 == mu * mu && m22 == m2 * m2
    ensures FourthAboutZero(mu, m2, m3, m4) * Square(m2) - m4 * Square(m2 + mu2) == mu * Excess(mu, m2, m3, m4)
  {
    var mu4 := mu2 * mu2;
    assert Square(m2 + mu2) == m22 + 2.0 * (m2 * mu2) + mu4;
    assert FourthAboutZero(mu, m2, m3, m4) == m4 + 4.0 * (mu * m3) + 6.0 * (mu2 * m2) + mu4;
  }

  /** A block with an offset on which the two differ: -1 instead of -2. */
  lemma OffsetChangesKurtosis(fallback: real)
    ensures KurtosisFromSums(SumSquares([0.0, 2.0]), SumQuads([0.0, 2.0]), 2, fallback) == -1.0
    ensures CentralKurtosis([0.0, 2.0], fallback) == -2.0
  {
    var xs := [0.0, 2.0];
    assert xs[..1] == [0.0] && [0.0][..0] == [];
    SumsStep(xs);
    SumsStep([0.0]);
    NoSquares();
    assert Sum([0.0]) == 0.0 && Sum(xs) == 2.0;
    assert Mean(xs) == 1.0;
    assert Deviations([0.0], 1.0) == 1.0 && QuarticDeviations([0.0], 1.0) == 1.0;
  }

  // ----- Peaks and the crest factor

  function PeakAbs(xs: seq<real>): (p: real)
    ensures p >= 0.0 && forall i :: 0 <= i < |xs| ==> Abs(xs[i]) <= p
    ensures xs != [] ==> exists i :: 0 <= i < |xs| && Abs(xs[i]) == p
  {
    if xs == [] then 0.0
    else
      var p, a := PeakAbs(xs[..|xs| - 1]), Abs(xs[|xs| - 1]);
      assert forall i :: 0 <= i < |xs| - 1 ==> xs[i] == xs[..|xs| - 1][i];
      if a > p then a else p
  }

  lemma {:induction false} EverySquareCounts(xs: seq<real>, i: nat)
    requires i < |xs|
    ensures Square(xs[i]) <= SumSquares(xs)
    decreases |xs|
  {
    hide SumSquares, Square;
    SumsStep(xs);
    SumSquaresNonNegative(xs[..|xs| - 1]);
    SquareNonNegative(xs[|xs| - 1]);
    if i < |xs| - 1 {
      EverySquareCounts(xs[..|xs| - 1], i);
    }
  }

  lemma SquareNonNegative(x: real)
    ensures Square(x) >= 0.0
  {
  }

  lemma SquareOfAbs(x: real, p: real)
    requires Abs(x) <= p
    ensures Square(x) <= Square(p)
    ensures Abs(x) == p ==> Square(x) == Square(p)
  {
    NonNegativeProduct(p - Abs(x), p + Abs(x), (p - Abs(x)) * (p + Abs(x)));
  }

  lemma {:induction false} SumSquaresBelow(xs: seq<real>, p: real)
    requires forall i :: 0 <= i < |xs| ==> Abs(xs[i]) <= p
    ensures SumSquares(xs) <= |xs| as real * Square(p)
    decreases |xs|
  {
    hide SumSquares, Square, Abs;
    if xs == [] {
      NoSquares();
    } else {
      var n := |xs| as real;
      SumSquaresBelow(xs[..|xs| - 1], p);
      SumsStep(xs);
      SquareOfAbs(xs[|xs| - 1], p);
      assert n * Square(p) == (n - 1.0) * Square(p) + Square(p);
    }
  }

  /** Above the rms threshold the square of the crest factor of every block of n samples lies between 1 and
      n; below it the crest factor is zero. */
  lemma CrestBounds(sqrt: real -> real, xs: seq<real>)
    requires xs != [] && IsSqrt(sqrt)
    ensures var rms := RmsFromSumSq(sqrt, SumSquares(xs), |xs|); var c := CrestFactor(PeakAbs(xs), rms);
            if rms > RMS_MIN then c >= 1.0 && 1.0 <= Square(c) <= |xs| as real else c == 0.0
  {
    hide Square, PeakAbs, SumSquares, IsSqrt, RmsFromSumSq, CrestFactor;
    var s2, p := SumSquares(xs), PeakAbs(xs);
    var rms := RmsFromSumSq(sqrt, s2, |xs|);
    if rms > RMS_MIN {
      PeakSquare(xs);
      SumSquaresNonNegative(xs);
      RmsSquared(sqrt, s2, |xs|);
      CrestRatio(|xs| as real, s2, p, rms);
    } else {
      NoCrest(p, rms);
    }
  }

  /** The crest factor is the peak in multiples of the rms value. */
  lemma CrestIsPeakOverRms(peak: real, rms: real)
    ensures if rms > 0.00000001 then CrestFactor(peak, rms) * rms == peak else CrestFactor(peak, rms) == 0.0
  {
    if rms > 0.00000001 {
      var c := peak / rms;
      assert rms * c == peak;
    }
  }

  lemma PeakSquare(xs: seq<real>)
    requires xs != []
    ensures Square(PeakAbs(xs)) <= SumSquares(xs) <= |xs| as real * Square(PeakAbs(xs))
  {
    hide SumSquares, Square, PeakAbs, Abs;
    var p := PeakAbs(xs);
    SumSquaresBelow(xs, p);
    var i :| 0 <= i < |xs| && Abs(xs[i]) == p;
    EverySquareCounts(xs, i);
    SquareOfAbs(xs[i], p);
  }

  lemma RmsSquared(sqrt: real -> real, sumSq: real, n: nat)
    requires n > 0 && sumSq >= 0.0 && IsSqrt(sqrt)
    ensures var rms := RmsFromSumSq(sqrt, sumSq, n); rms >= 0.0 && Square(rms) == sumSq / n as real
  {
    assert sumSq / n as real >= 0.0;
  }

  lemma NoCrest(p: real, rms: real)
    requires rms <= RMS_MIN
    ensures CrestFactor(p, rms) == 0.0
  {
  }

  lemma CrestRatio(n: real, s2: real, p: real, rms: real)
    requires n >= 1.0 && p >= 0.0 && rms > RMS_MIN && Square(rms) == s2 / n
    requires Square(p) <= s2 <= n * Square(p)
    ensures var c := CrestFactor(p, rms); c >= 1.0 && 1.0 <= Square(c) <= n
  {
    var c := p / rms;
    var rr, pp, cc := Square(rms), Square(p), Square(c);
    CrestProducts(p, rms, c);
    CrestScalars(n, s2, rr, pp, cc, cc * rr);
    PositiveFactor(rms, c, p);
    SquareAtLeastOne(c);
  }

  lemma CrestProducts(p: real, rms: real, c: real)
    requires rms > 0.0 && c == p / rms
    ensures rms * c == p && Square(c) * Square(rms) == Square(p) && Square(rms) > 0.0
  {
    assert (c * c) * (rms * rms) == (rms * c) * (rms * c);
  }

  lemma CrestScalars(n: real, s2: real, rr: real, pp: real, cc: real, ccrr: real)
    requires n >= 1.0 && rr == s2 / n && rr > 0.0 && pp <= s2 <= n * pp && ccrr == cc * rr && ccrr == pp
    ensures 1.0 <= cc <= n
  {
    assert n * rr == s2;
    PositiveFactor(n, pp - rr, n * (pp - rr));
    PositiveFactor(rr, cc - 1.0, rr * (cc - 1.0));
    PositiveFactor(rr, n - cc, rr * (n - cc));
  }

  lemma SquareAtLeastOne(c: real)
    requires c >= 0.0 && Square(c) >= 1.0
    ensures c >= 1.0
  {
    PositiveFactor(c + 1.0, c - 1.0, (c + 1.0) * (c - 1.0));
  }

  // ----- The single pass

  datatype AxisStats = AxisStats(dc: real, rms: real, peakAbs: real, peakSigned: real, kurtosis: real, std: real,
                                 skewness: real, clip: bool)

  /** The statistics of a block, each in terms of the block's samples. */
  ghost predicate Describes(st: AxisStats, xs: seq<real>)
    requires xs != []
  {
    var n := |xs| as real;
    && st.dc == Mean(xs)
    && st.rms >= 0.0 && Square(st.rms) == SumSquares(xs) / n
    && st.peakAbs == PeakAbs(xs)
    && st.peakSigned in xs && (forall x :: x in xs ==> x <= st.peakSigned)
    && st.kurtosis == KurtosisFromSums(SumSquares(xs), SumQuads(xs), |xs|, 0.0)
    && st.std >= 0.0 && Square(st.std) == Deviations(xs, Mean(xs)) / n
    && (if Square(st.std) > VARIANCE_MIN
        then st.skewness * Cubed(st.std) == CubedDeviations(xs, Mean(xs)) / n
        else st.skewness == 0.0)
    && (st.clip <==> exists i :: 0 <= i < |xs| && Abs(xs[i]) >= 1.0)
  }

  lemma StdSquared(sqrt: real -> real, sum: real, sumSq: real, sumCube: real, n: nat)
    requires n > 0 && IsSqrt(sqrt) && VarianceFromSums(sum, sumSq, n) >= 0.0
    ensures var std, v := StdFromSums(sqrt, sum, sumSq, n), VarianceFromSums(sum, sumSq, n);
            var skew := SkewnessFromSums(sqrt, sum, sumSq, sumCube, n, 0.0);
            && std >= 0.0 && Square(std) == v
            && (if v > VARIANCE_MIN then skew * Cubed(std) == ThirdMomentFromSums(sum, sumSq, sumCube, n)
                else skew == 0.0)
  {
    hide IsSqrt, ThirdMomentFromSums, VarianceFromSums;
    var v := VarianceFromSums(sum, sumSq, n);
    if v > 0.0 {
      RootPositive(sqrt, v);
      var s3, m3 := Cubed(sqrt(v)), ThirdMomentFromSums(sum, sumSq, sumCube, n);
      TimesQuotient(m3, s3);
    }
  }

  lemma TimesQuotient(x: real, d: real)
    requires d != 0.0
    ensures x / d * d == x
  {
  }

  lemma MeanOfNonNegative(s: real, n: real)
    requires s >= 0.0 && n > 0.0
    ensures s / n >= 0.0
  {
  }

  lemma StatsDescribe(sqrt: real -> real, xs: seq<real>)
    requires xs != [] && IsSqrt(sqrt)
    ensures var n := |xs|; var std := StdFromSums(sqrt, Sum(xs), SumSquares(xs), n);
            var skew := SkewnessFromSums(sqrt, Sum(xs), SumSquares(xs), SumCubes(xs), n, 0.0);
            var rms := RmsFromSumSq(sqrt, SumSquares(xs), n);
            && Sum(xs) / n as real == Mean(xs)
            && rms >= 0.0 && Square(rms) == SumSquares(xs) / n as real
            && std >= 0.0 && Square(std) == Deviations(xs, Mean(xs)) / n as real
            && (if Square(std) > VARIANCE_MIN then skew * Cubed(std) == CubedDeviations(xs, Mean(xs)) / n as real
                else skew == 0.0)
  {
    hide Sum, SumSquares, SumCubes, Deviations, CubedDeviations, IsSqrt, VarianceFromSums, ThirdMomentFromSums,
         StdFromSums, SkewnessFromSums, RmsFromSumSq;
    SumsGiveCentralMoments(xs);
    DeviationsNonNegative(xs, Mean(xs));
    MeanOfNonNegative(Deviations(xs, Mean(xs)), |xs| as real);
    StdSquared(sqrt, Sum(xs), SumSquares(xs), SumCubes(xs), |xs|);
    SumSquaresNonNegative(xs);
    RmsSquared(sqrt, SumSquares(xs), |xs|);
  }

  lemma SumsNext(xs: seq<real>, i: nat, v: real)
    requires i < |xs| && v == xs[i]
    ensures xs[..i + 1][..i] == xs[..i]
    ensures Sum(xs[..i + 1]) == Sum(xs[..i]) + v
    ensures SumSquares(xs[..i + 1]) == SumSquares(xs[..i]) + Square(v)
    ensures SumCubes(xs[..i + 1]) == SumCubes(xs[..i]) + Cubed(v)
    ensures SumQuads(xs[..i + 1]) == SumQuads(xs[..i]) + Quartic(v)
    ensures PeakAbs(xs[..i + 1]) == if Abs(v) > PeakAbs(xs[..i]) then Abs(v) else PeakAbs(xs[..i])
  {
    hide SumSquares, SumQuads;
    assert xs[..i + 1][..i] == xs[..i];
    SumsStep(xs[..i + 1]);
    QuadIs(v);
  }

  lemma QuadIs(v: real)
    ensures Square(Square(v)) == Quartic(v)
    ensures CubedError(v, 0.0) == Cubed(v)
  {
  }

  lemma NothingSummed(xs: seq<real>)
    ensures xs[..0] == [] && Sum([]) == 0.0 && SumSquares([]) == 0.0 && SumCubes([]) == 0.0 && SumQuads([]) == 0.0
    ensures PeakAbs([]) == 0.0
  {
  }

  /** After i samples: the running maximum, which starts at the first sample, and the count of full-scale
      samples. */
  predicate Scanned(xs: seq<real>, i: nat, peakSigned: real, clip: nat)
    requires i <= |xs|
  {
    && peakSigned in xs && (forall j :: 0 <= j < i ==> xs[j] <= peakSigned)
    && (clip > 0 <==> exists j :: 0 <= j < i && Abs(xs[j]) >= 1.0)
  }

  lemma NothingScanned(xs: seq<real>)
    requires xs != []
    ensures Scanned(xs, 0, xs[0], 0)
  {
  }

  lemma ScannedNext(xs: seq<real>, i: nat, peakSigned: real, clip: nat)
    requires i < |xs| && Scanned(xs, i, peakSigned, clip)
    ensures Scanned(xs, i + 1, if xs[i] > peakSigned then xs[i] else peakSigned, if Abs(xs[i]) >= 1.0 then clip + 1 else clip)
  {
    hide Abs;
  }

  lemma AllScanned(xs: seq<real>, peakSigned: real, clip: nat)
    requires Scanned(xs, |xs|, peakSigned, clip)
    ensures peakSigned in xs && forall x :: x in xs ==> x <= peakSigned
    ensures clip > 0 <==> exists i :: 0 <= i < |xs| && Abs(xs[i]) >= 1.0
  {
  }

  method ComputeAxisStats(sqrt: real -> real, block: array<real>) returns (st: AxisStats)
    requires block.Length >= 1 && IsSqrt(sqrt)
    ensures Describes(st, block[..])
  {
    hide Sum, SumSquares, SumCubes, SumQuads, PeakAbs, Abs, IsSqrt, StdFromSums, SkewnessFromSums, RmsFromSumSq,
         KurtosisFromSums, Deviations, CubedDeviations, Square, Cubed, Quartic, Scanned;
    ghost var xs := block[..];
    NothingSummed(xs);
    NothingScanned(xs);
    var sum, sq, cube, quad := 0.0, 0.0, 0.0, 0.0;
    var peakAbs, peakSigned := 0.0, block[0];
    var clip: nat := 0;
    for i := 0 to block.Length
      invariant sum == Sum(xs[..i]) && sq == SumSquares(xs[..i]) && cube == SumCubes(xs[..i]) && quad == SumQuads(xs[..i])
      invariant peakAbs == PeakAbs(xs[..i])
      invariant Scanned(xs, i, peakSigned, clip)
    {
      var v := block[i];
      SumsNext(xs, i, v);
      ScannedNext(xs, i, peakSigned, clip);
      var a := Abs(v);
      sum := sum + v;
      sq := sq + Square(v);
      cube := cube + Cubed(v);
      quad := quad + Quartic(v);
      if a > peakAbs {
        peakAbs := a;
      }
      if v > peakSigned {
        peakSigned := v;
      }
      if a >= 1.0 {
        clip := clip + 1;
      }
    }
    assert xs[..block.Length] == xs;
    var n := block.Length;
    st := AxisStats(sum / n as real, RmsFromSumSq(sqrt, sq, n), peakAbs, peakSigned, KurtosisFromSums(sq, quad, n, 0.0),
                    StdFromSums(sqrt, sum, sq, n), SkewnessFromSums(sqrt, sum, sq, cube, n, 0.0), clip > 0);
    StatsDescribe(sqrt, xs);
    AllScanned(xs, peakSigned, clip);
  }

  method FindPeakAbs(x: array<real>, n: nat) returns (peak: real)
    requires n <= x.Length
    ensures peak == PeakAbs(x[..n])
  {
    hide PeakAbs;
    ghost var xs := x[..n];
    NothingSummed(xs);
    peak := 0.0;
    for i := 0 to n
      invariant peak == PeakAbs(xs[..i])
    {
      SumsNext(xs, i, xs[i]);
      var a := Abs(x[i]);
      if a > peak {
        peak := a;
      }
    }
    assert xs[..n] == xs;
  }

  method FindPeakSigned(x: array<real>, n: nat) returns (peak: real)
    requires 1 <= n <= x.Length
    ensures peak in x[..n] && forall i :: 0 <= i < n ==> x[i] <= peak
  {
    peak := x[0];
    for i := 1 to n
      invariant peak in x[..n] && forall j :: 0 <= j < i ==> x[j] <= peak
    {
      if x[i] > peak {
        peak := x[i];
      }
    }
  }
}
