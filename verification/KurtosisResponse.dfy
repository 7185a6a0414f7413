/** How the raw level of a frame answers to its kurtosis, the satellite's state and the frame's other features
    being fixed: the kurtosis acts through its own thresholds, its adaptive z-score, the two-sided calibration
    z-score and the fused posterior. */
module KurtosisResponse {
  import opened RealMath
  import opened AlertEngine
  import opened AdaptiveBaselines
  import opened Calibrations
  import opened SatellitePipeline
  import opened Wrappers

  /** What is fixed: the satellite's calibration and baselines when the frame is scored, and the frame's other
      features. The tree detector's and the autoencoder's z-scores may depend on the kurtosis in any way. */
  datatype Setting = Setting(cal: Calibration, ab: Baselines, f: Frame, extra: real -> seq<B.Score>)

  function FrameAt(s: Setting, k: real): Frame { s.f.(kurtosis := k, extra := s.extra(k)) }

  function EvidenceAt(c: Config, s: Setting, k: real): Evidence
    requires c.Valid()
  {
    EvidenceOf(c, s.cal, s.ab, FrameAt(s, k))
  }

  function LevelAt(c: Config, s: Setting, k: real): Alert
    requires c.Valid()
  {
    RawLevel(c.thresholds, EvidenceAt(c, s, k))
  }

  /** Raising the kurtosis from k to k' lowers the level. */
  predicate Lowers(c: Config, s: Setting, k: real, k': real)
    requires c.Valid()
  {
    k < k' && LevelAt(c, s, k).Severity() > LevelAt(c, s, k').Severity()
  }

  // ----- The evidence besides the kurtosis, and the least kurtosis that reaches a level

  predicate Ready(s: Setting) { s.ab.kurtosis.nUpdates >= AB_WARMUP_FRAMES }

  /** The kurtosis baseline yields a z-score. */
  predicate Scored(s: Setting) { Ready(s) && s.ab.kurtosis.nUpdates >= s.ab.kurtosis.warmupN }

  /** Some adaptive z-score other than that of the kurtosis reaches the threshold. */
  predicate OthersReach(sqrt: real -> real, s: Setting, z: real) {
    if !Ready(s) then 0.0 >= z
    else
      || (!Scored(s) && 0.0 >= z)
      || Score(sqrt, s.ab.crest, s.f.crest) >= z || Score(sqrt, s.ab.rms, s.f.rms) >= z
      || (s.ab.hb.nUpdates >= AB_WARMUP_FRAMES && Score(sqrt, s.ab.hb, s.f.hb) >= z)
  }

  function RmsZ(cal: Calibration, f: Frame): real
    requires cal.Calibrated?
  {
    Abs(f.rms - cal.mean.rms) / cal.rmsStd
  }

  /** The evidence without the kurtosis reaches the level whose thresholds are given. */
  predicate OtherEvidence(sqrt: real -> real, s: Setting, zAdapt: real, zCal: real) {
    OthersReach(sqrt, s, zAdapt) || (if s.cal.Calibrated? then RmsZ(s.cal, s.f) >= zCal else 0.0 >= zCal)
  }

  /** The least kurtosis, at or above the calibration mean if there is one, that reaches the level. */
  function LeastKurtosis(sqrt: real -> real, s: Setting, threshold: real, zAdapt: real, zCal: real): real {
    var byBaseline := if Scored(s) then Min(threshold, CurrentMean(s.ab.kurtosis) + zAdapt * CurrentStd(sqrt, s.ab.kurtosis)) else threshold;
    if s.cal.Calibrated? then Min(byBaseline, s.cal.mean.kurtosis + zCal * s.cal.kurtosisStd) else byBaseline
  }

  function Least(c: Config, s: Setting, level: Alert): real {
    if level == FAULT then LeastKurtosis(c.sqrt, s, c.thresholds.kFault, c.thresholds.zFault, 5.0)
    else LeastKurtosis(c.sqrt, s, c.thresholds.kWarn, c.thresholds.zWarn, 3.0)
  }

  predicate Others(c: Config, s: Setting, level: Alert) {
    if level == FAULT then OtherEvidence(c.sqrt, s, c.thresholds.zFault, 5.0)
    else OtherEvidence(c.sqrt, s, c.thresholds.zWarn, 3.0)
  }

  function CrestLevel(c: Config, s: Setting): Alert {
    if s.f.crest >= c.thresholds.crestFault || s.f.imuCrest >= c.thresholds.imuCrestFault then FAULT
    else if s.f.crest >= c.thresholds.crestWarn || s.f.imuCrest >= c.thresholds.imuCrestWarn then WARN
    else OK
  }

  /** A level as a step function of the kurtosis: what reaches FAULT and WARN besides it, the least kurtosis that
      does, and the level below both. */
  function Stepped(otherFault: bool, otherWarn: bool, leastFault: real, leastWarn: real, below: Alert, k: real): Alert {
    if otherFault || k >= leastFault then FAULT else if otherWarn || k >= leastWarn then WARN else below
  }

  function SteppedAt(c: Config, s: Setting, k: real): Alert {
    Stepped(Others(c, s, FAULT), Others(c, s, WARN), Least(c, s, FAULT), Least(c, s, WARN), CrestLevel(c, s), k)
  }

  predicate HighBand(c: Config, s: Setting) {
    s.f.hb >= c.thresholds.highBandMin
    || (s.ab.hb.nUpdates >= AB_WARMUP_FRAMES && Score(c.sqrt, s.ab.hb, s.f.hb) >= c.thresholds.zHb)
  }

  /** The calibration's part is increasing at k: there is no calibration, or k is not below its mean. */
  predicate AboveMean(s: Setting, k: real) { s.cal.Calibrated? ==> s.cal.mean.kurtosis <= k }

  lemma QuotientReaches(x: real, m: real, d: real, z: real)
    requires d > 0.0
    ensures (x - m) / d >= z <==> x >= m + z * d
  {
    var q := (x - m) / d;
    assert d * q == x - m;
    PositiveFactor(d, q - z, d * (q - z));
  }

  lemma KurtosisReaches(sqrt: real -> real, s: Setting, zAdapt: real, k: real)
    ensures AdaptiveZ(sqrt, s.ab, FrameAt(s, k)) >= zAdapt <==>
              OthersReach(sqrt, s, zAdapt)
              || (Scored(s) && k >= CurrentMean(s.ab.kurtosis) + zAdapt * CurrentStd(sqrt, s.ab.kurtosis))
  {
    hide CurrentMean, CurrentStd;
    if Scored(s) {
      var d := CurrentStd(sqrt, s.ab.kurtosis);
      assert d > 0.0 by { StdPositive(sqrt, s.ab.kurtosis); }
      QuotientReaches(k, CurrentMean(s.ab.kurtosis), d, zAdapt);
    }
  }

  lemma StdPositive(sqrt: real -> real, b: Baseline)
    ensures CurrentStd(sqrt, b) > 0.0
  {
  }

  lemma CalibrationReaches(s: Setting, zCal: real, k: real)
    requires AboveMean(s, k)
    ensures CalibrationZ(s.cal, FeaturesOf(FrameAt(s, k))) >= zCal <==>
              if s.cal.Calibrated? then RmsZ(s.cal, s.f) >= zCal || k >= s.cal.mean.kurtosis + zCal * s.cal.kurtosisStd
              else 0.0 >= zCal
  {
    if s.cal.Calibrated? {
      QuotientReaches(k, s.cal.mean.kurtosis, s.cal.kurtosisStd, zCal);
    }
  }

  lemma EvidenceReaches(sqrt: real -> real, s: Setting, threshold: real, zAdapt: real, zCal: real, k: real)
    requires AboveMean(s, k)
    ensures k >= threshold || CalibrationZ(s.cal, FeaturesOf(FrameAt(s, k))) >= zCal || AdaptiveZ(sqrt, s.ab, FrameAt(s, k)) >= zAdapt
            <==> OtherEvidence(sqrt, s, zAdapt, zCal) || k >= LeastKurtosis(sqrt, s, threshold, zAdapt, zCal)
  {
    hide AdaptiveZ, CalibrationZ, OthersReach, CurrentMean, CurrentStd, RmsZ, FrameAt, Scored;
    KurtosisReaches(sqrt, s, zAdapt, k);
    CalibrationReaches(s, zCal, k);
  }

  /** At or above the calibration mean the threshold level is a step function of the kurtosis. */
  lemma ThresholdIsStepped(c: Config, s: Setting, k: real)
    requires c.Valid() && AboveMean(s, k)
    ensures ThresholdLevel(c.thresholds, EvidenceAt(c, s, k)) == SteppedAt(c, s, k)
  {
    hide Config.Valid, AdaptiveZ, CalibrationZ, Fused, OtherEvidence, LeastKurtosis, Score;
    EvidenceReaches(c.sqrt, s, c.thresholds.kFault, c.thresholds.zFault, 5.0, k);
    EvidenceReaches(c.sqrt, s, c.thresholds.kWarn, c.thresholds.zWarn, 3.0, k);
  }

  // ----- The posterior

  /** The foreign channels' evidence does not fall as the kurtosis rises; without such channels it is constant. */
  ghost predicate Rising(c: Config, s: Setting)
    requires c.Valid()
  {
    c.fusion.Some? && s.cal.Calibrated? ==>
      forall k, k' :: k <= k' ==> B.Evidence(c.fusion.value, s.extra(k)) <= B.Evidence(c.fusion.value, s.extra(k'))
  }

  lemma EvidenceOfChannels(fusion: B.Fusion, cal: Calibration, f: Frame)
    requires fusion.Valid() && cal.Calibrated?
    ensures B.Evidence(fusion, Channels(cal, f))
         == B.Contribution(fusion, (f.kurtosis - cal.mean.kurtosis) / cal.kurtosisStd)
            + B.Contribution(fusion, (f.rms - cal.mean.rms) / cal.rmsStd) + B.Evidence(fusion, f.extra)
  {
    hide B.Evidence, B.Contribution;
    var k, r := B.Number((f.kurtosis - cal.mean.kurtosis) / cal.kurtosisStd), B.Number((f.rms - cal.mean.rms) / cal.rmsStd);
    assert [k, r] == [k] + [r];
    B.EvidenceSplits(fusion, [k, r], f.extra);
    B.EvidenceSplits(fusion, [k], [r]);
    B.SingleEvidence(fusion, k.z);
    B.SingleEvidence(fusion, r.z);
  }

  lemma PosteriorRises(c: Config, s: Setting, k: real, k': real)
    requires c.Valid() && Rising(c, s) && k < k'
    ensures var p, p' := Fused(c, s.cal, FrameAt(s, k)), Fused(c, s.cal, FrameAt(s, k'));
            (p.Some? <==> p'.Some?) && (p.Some? ==> p.value < p'.value)
  {
    if c.fusion.Some? && s.cal.Calibrated? {
      hide IsExp, IsSqrt, B.Evidence, B.Posterior, B.Contribution, Channels;
      var fusion, m, d := c.fusion.value, s.cal.mean.kurtosis, s.cal.kurtosisStd;
      EvidenceOfChannels(fusion, s.cal, FrameAt(s, k));
      EvidenceOfChannels(fusion, s.cal, FrameAt(s, k'));
      QuotientRises(k - m, k' - m, d);
      B.ContributionIncreasing(fusion, (k - m) / d, (k' - m) / d);
      assert B.Evidence(fusion, s.extra(k)) <= B.Evidence(fusion, s.extra(k'));
      B.PosteriorIncreasing(c.exp, fusion.prior, B.Evidence(fusion, Channels(s.cal, FrameAt(s, k))),
                            B.Evidence(fusion, Channels(s.cal, FrameAt(s, k'))));
    }
  }

  lemma QuotientRises(x: real, y: real, d: real)
    requires x < y && d > 0.0
    ensures x / d < y / d
  {
    var p, q := x / d, y / d;
    assert d * p == x && d * q == y;
    PositiveFactor(d, q - p, y - x);
  }

  // ----- When raising the kurtosis lowers the level

  /** A crest FAULT below a WARN range of the kurtosis: nothing else reaches WARN, and WARN is reached at a lower
      kurtosis than FAULT. */
  predicate Shadowed(c: Config, s: Setting) {
    && HighBand(c, s) && CrestLevel(c, s) == FAULT
    && !Others(c, s, FAULT) && !Others(c, s, WARN) && Least(c, s, WARN) < Least(c, s, FAULT)
  }

  /** The posterior at the least WARN kurtosis decides FAULT by itself. */
  predicate FusedToFault(c: Config, s: Setting)
    requires c.Valid()
  {
    Reaches(Fused(c, s.cal, FrameAt(s, Least(c, s, WARN))), c.thresholds.pFault)
  }

  lemma LevelIs(c: Config, s: Setting, k: real)
    requires c.Valid() && AboveMean(s, k)
    ensures LevelAt(c, s, k)
         == if HighBand(c, s) then Escalated(c.thresholds, SteppedAt(c, s, k), Fused(c, s.cal, FrameAt(s, k))) else OK
  {
    hide SteppedAt, Fused, Score, AdaptiveZ, CalibrationZ, Config.Valid, ThresholdLevel;
    ThresholdIsStepped(c, s, k);
  }

  lemma StepsLower(of: bool, ow: bool, lf: real, lw: real, below: Alert, k: real, k': real)
    requires k < k'
    ensures Stepped(of, ow, lf, lw, below, k).Severity() > Stepped(of, ow, lf, lw, below, k').Severity() <==>
              below == FAULT && !of && !ow && k < lw <= k' < lf
  {
  }

  lemma EscalationRises(t: Thresholds, a: Alert, b: Alert, p: Option<real>, q: Option<real>)
    requires (p.Some? <==> q.Some?) && (p.Some? ==> p.value <= q.value)
    ensures a.Severity() <= b.Severity() ==> Escalated(t, a, p).Severity() <= Escalated(t, b, q).Severity()
    ensures Escalated(t, a, p).Severity() > Escalated(t, b, q).Severity() ==> !Reaches(q, t.pFault)
  {
  }

  /** At or above the calibration mean (anywhere without a calibration) raising the kurtosis lowers the level
      exactly on entering the shadowed WARN range, unless the posterior there decides FAULT by itself. */
  lemma LowersAboveMean(c: Config, s: Setting, k: real, k': real)
    requires c.Valid() && Rising(c, s) && AboveMean(s, k) && k < k'
    ensures Lowers(c, s, k, k') <==>
              && Shadowed(c, s) && k < Least(c, s, WARN) <= k' < Least(c, s, FAULT)
              && !Reaches(Fused(c, s.cal, FrameAt(s, k')), c.thresholds.pFault)
  {
    hide Others, Least, CrestLevel, Fused, HighBand, Config.Valid, LevelAt, Stepped, Rising, FrameAt;
    LevelIs(c, s, k);
    LevelIs(c, s, k');
    PosteriorRises(c, s, k, k');
    StepsLower(Others(c, s, FAULT), Others(c, s, WARN), Least(c, s, FAULT), Least(c, s, WARN), CrestLevel(c, s), k, k');
    EscalationRises(c.thresholds, SteppedAt(c, s, k), SteppedAt(c, s, k'),
                    Fused(c, s.cal, FrameAt(s, k)), Fused(c, s.cal, FrameAt(s, k')));
    SteppedFacts(c, s, k, k');
  }

  lemma SteppedFacts(c: Config, s: Setting, k: real, k': real)
    ensures !Others(c, s, FAULT) && !Others(c, s, WARN) && k < Least(c, s, WARN) <= k' < Least(c, s, FAULT) ==>
              SteppedAt(c, s, k) == CrestLevel(c, s) && SteppedAt(c, s, k') == WARN
  {
    hide Others, Least, CrestLevel;
  }

  /** For an uncalibrated satellite some rise of the kurtosis lowers the level if and only if a crest FAULT is
      shadowed. */
  lemma UncalibratedLowersExactly(c: Config, s: Setting)
    requires c.Valid() && s.cal.Collecting?
    ensures (exists k, k' :: Lowers(c, s, k, k')) <==> Shadowed(c, s)
  {
    hide Lowers, Shadowed, Least, Config.Valid;
    forall k, k' | k < k'
      ensures Lowers(c, s, k, k') <==> Shadowed(c, s) && k < Least(c, s, WARN) <= k' < Least(c, s, FAULT)
    {
      LowersAboveMean(c, s, k, k');
    }
    if Shadowed(c, s) {
      var k' := Least(c, s, WARN);
      ShadowedOrder(c, s);
      assert Lowers(c, s, k' - 1.0, k');
    } else {
      forall k, k' ensures !Lowers(c, s, k, k') {
        LowersNeedsOrder(c, s, k, k');
      }
    }
  }

  lemma ShadowedOrder(c: Config, s: Setting)
    requires Shadowed(c, s)
    ensures Least(c, s, WARN) < Least(c, s, FAULT)
  {
  }

  lemma LowersNeedsOrder(c: Config, s: Setting, k: real, k': real)
    requires c.Valid()
    ensures Lowers(c, s, k, k') ==> k < k'
  {
    hide Config.Valid, LevelAt;
  }

  /** For a calibrated satellite some rise of the kurtosis from its mean or above lowers the level if and only if
      a crest FAULT is shadowed, the WARN range starts above the mean, and the posterior there does not decide
      FAULT by itself. */
  lemma CalibratedLowersExactly(c: Config, s: Setting)
    requires c.Valid() && s.cal.Calibrated? && Rising(c, s)
    ensures (exists k, k' :: s.cal.mean.kurtosis <= k && Lowers(c, s, k, k'))
            <==> Shadowed(c, s) && s.cal.mean.kurtosis < Least(c, s, WARN) && !FusedToFault(c, s)
  {
    hide Lowers, Shadowed, Least, Config.Valid, Fused, Rising, FrameAt;
    var mean, w := s.cal.mean.kurtosis, Least(c, s, WARN);
    forall k, k' | mean <= k < k'
      ensures Lowers(c, s, k, k') <==>
                && Shadowed(c, s) && k < w <= k' < Least(c, s, FAULT)
                && !Reaches(Fused(c, s.cal, FrameAt(s, k')), c.thresholds.pFault)
    {
      LowersAboveMean(c, s, k, k');
    }
    if Shadowed(c, s) && mean < w && !FusedToFault(c, s) {
      ShadowedOrder(c, s);
      assert Lowers(c, s, mean, w);
    } else {
      forall k, k' | mean <= k ensures !Lowers(c, s, k, k') {
        LowersNeedsOrder(c, s, k, k');
        if k < k' && w < k' {
          PosteriorRises(c, s, w, k');
        }
      }
    }
  }

  /** A calibrated satellite's z-score is two-sided, so a kurtosis far enough below its mean is a FAULT. Whatever
      the other evidence, every kurtosis whose level is not FAULT is reached by a rise that lowers the level,
      unless the high band is missing, which keeps every level OK. */
  lemma EveryLevelIsLoweredTo(c: Config, s: Setting, k': real)
    requires c.Valid() && s.cal.Calibrated?
    ensures (exists k :: Lowers(c, s, k, k')) <==> HighBand(c, s) && LevelAt(c, s, k') != FAULT
  {
    hide Config.Valid, Fused, AdaptiveZ, Score;
    var far := s.cal.mean.kurtosis - 5.0 * s.cal.kurtosisStd;
    var k := (if k' < far then k' else far) - 1.0;
    FarBelowIsFault(c, s, k);
    if HighBand(c, s) && LevelAt(c, s, k') != FAULT {
      assert Lowers(c, s, k, k');
    } else {
      NoHigherLevel(c, s, k');
    }
  }

  lemma FarBelowIsFault(c: Config, s: Setting, k: real)
    requires c.Valid() && s.cal.Calibrated? && k <= s.cal.mean.kurtosis - 5.0 * s.cal.kurtosisStd
    ensures HighBand(c, s) ==> LevelAt(c, s, k) == FAULT
  {
    hide Config.Valid, Fused, AdaptiveZ, Score;
    var m, d := s.cal.mean.kurtosis, s.cal.kurtosisStd;
    QuotientReaches(m - k, 0.0, d, 5.0);
    assert Abs(k - m) == m - k;
  }

  lemma NoHigherLevel(c: Config, s: Setting, k': real)
    requires c.Valid()
    requires !HighBand(c, s) || LevelAt(c, s, k') == FAULT
    ensures forall k :: !Lowers(c, s, k, k')
  {
    hide Config.Valid, EvidenceAt;
    if !HighBand(c, s) {
      forall k ensures LevelAt(c, s, k) == OK {
        NoHighBand(c, s, k);
      }
    }
  }

  lemma NoHighBand(c: Config, s: Setting, k: real)
    requires c.Valid() && !HighBand(c, s)
    ensures LevelAt(c, s, k) == OK
  {
    hide Config.Valid, Fused, AdaptiveZ, Score, CalibrationZ;
  }

  // ----- Witnesses, with the default thresholds

  const BLANK := Baseline(0.00005, 30, 0, 0.0, 0.0, 0.0, FLOOR, 0)
  const NO_BASELINES := Baselines(BLANK, BLANK, BLANK, BLANK)

  /** An uncalibrated satellite with a crest factor of 11: a kurtosis of 5 is a FAULT, one of 6 a WARN. */
  lemma CrestFaultIsShadowed(c: Config, f: Frame, extra: real -> seq<B.Score>)
    requires c.Valid() && c.thresholds == DEFAULT_THRESHOLDS && f.crest == 11.0 && f.hb == 0.5
    ensures var s := Setting(Collecting([]), NO_BASELINES, f, extra);
            Lowers(c, s, 5.0, 6.0) && LevelAt(c, s, 5.0) == FAULT && LevelAt(c, s, 6.0) == WARN
  {
    hide Config.Valid;
  }

  const DEFAULT_FUSION := B.Fusion(0.01, 2.0, 1.0)

  /** A frame at its calibration means gives the default fusion less than the prior. */
  lemma PosteriorAtMeans(exp: real -> real, cal: Calibration, f: Frame)
    requires IsExp(exp) && cal.Calibrated? && f.rms == cal.mean.rms && f.kurtosis == cal.mean.kurtosis && f.extra == []
    ensures B.Posterior(exp, 0.01, B.Evidence(DEFAULT_FUSION, Channels(cal, f))) < 0.01
  {
    hide IsExp, B.Posterior, B.Evidence;
    EvidenceOfChannels(DEFAULT_FUSION, cal, f);
    NoEvidence(DEFAULT_FUSION);
    assert 0.0 / cal.kurtosisStd == 0.0 && 0.0 / cal.rmsStd == 0.0;
    B.PosteriorIncreasing(exp, 0.01, -4.0, 0.0);
    PriorIsNeutral(exp);
  }

  lemma NoEvidence(fusion: B.Fusion)
    requires fusion.Valid()
    ensures B.Evidence(fusion, []) == 0.0
  {
  }

  lemma PriorIsNeutral(exp: real -> real)
    requires IsExp(exp)
    ensures B.Posterior(exp, 0.01, 0.0) == 0.01
  {
    B.ExpOfNegation(exp, 0.0);
  }

  /** A satellite calibrated at kurtosis 3 with deviation 0.1 and otherwise quiet: a kurtosis of 2 is a FAULT, one
      of 3 is OK. */
  lemma LowKurtosisIsFault(c: Config, f: Frame)
    requires c.Valid() && c.thresholds == DEFAULT_THRESHOLDS
    requires c.fusion == None || c.fusion == Some(DEFAULT_FUSION)
    requires f.crest == 1.0 && f.imuCrest == 1.0 && f.hb == 0.5 && f.rms == 0.1
    ensures var s := Setting(Calibrated(Features(0.1, 3.0), 0.01, 0.1), NO_BASELINES, f, _ => []);
            Lowers(c, s, 2.0, 3.0) && LevelAt(c, s, 2.0) == FAULT && LevelAt(c, s, 3.0) == OK
  {
    hide IsExp, IsSqrt, B.Posterior, B.Evidence, Channels;
    var s := Setting(Calibrated(Features(0.1, 3.0), 0.01, 0.1), NO_BASELINES, f, _ => []);
    if c.fusion.Some? {
      PosteriorAtMeans(c.exp, s.cal, FrameAt(s, 3.0));
    }
  }
}
