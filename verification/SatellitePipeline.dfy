/** What one frame does to a satellite's state, whichever transport brought it: the replay gate, the alert
    decision, the drift reset, and the four baselines that learn only when the emitted alert is OK. */
module SatellitePipeline {
  import opened RealMath
  import opened AlertEngine
  import opened AdaptiveBaselines
  import opened Calibrations
  import opened Wrappers
  import B = BayesianFusion

  const AB_WARMUP_FRAMES := 30
  const DRIFT_MIN_FRAMES := 50
  const FEATURE_BUFFER := 500

  /** One frame, with what the parts outside this model report about it: the z-scores of the tree detector and
      the autoencoder where they are running, and whether the tree detector exists and reports a drift. */
  datatype Frame = Frame(id: nat, kurtosis: real, crest: real, rms: real, imuCrest: real, hb: real,
                         extra: seq<B.Score>, hst: bool, drift: bool)

  datatype Feature = KURTOSIS | CREST | RMS | HIGH_BAND

  function Value(f: Frame, feature: Feature): real {
    match feature
    case KURTOSIS => f.kurtosis
    case CREST => f.crest
    case RMS => f.rms
    case HIGH_BAND => f.hb
  }

  datatype Baselines = Baselines(kurtosis: Baseline, crest: Baseline, rms: Baseline, hb: Baseline) {
    function Of(feature: Feature): Baseline {
      match feature
      case KURTOSIS => kurtosis
      case CREST => crest
      case RMS => rms
      case HIGH_BAND => hb
    }
  }

  /** The state threaded from frame to frame; `feats` holds the features of the newest OK frames. */
  datatype State = State(lastId: int, alert: Hysteresis, ab: Baselines, cal: Calibration, feats: seq<Features>)

  datatype Config = Config(thresholds: Thresholds, sqrt: real -> real, exp: real -> real, fusion: Option<B.Fusion>) {
    ghost predicate Valid() { IsSqrt(sqrt) && (fusion.Some? ==> fusion.value.Valid() && IsExp(exp)) }
  }

  function Initial(ab: Baselines): State { State(-1, INITIAL, ab, Collecting([]), []) }

  predicate Replayed(s: State, f: Frame) { s.lastId >= 0 && f.id <= s.lastId }

  /** The largest z-score over the baselines that are ready; the high-band one is checked on its own. */
  function AdaptiveZ(sqrt: real -> real, ab: Baselines, f: Frame): real {
    if ab.kurtosis.nUpdates < AB_WARMUP_FRAMES then 0.0
    else
      var z := Max(Max(Score(sqrt, ab.kurtosis, f.kurtosis), Score(sqrt, ab.crest, f.crest)), Score(sqrt, ab.rms, f.rms));
      if ab.hb.nUpdates >= AB_WARMUP_FRAMES then Max(z, Score(sqrt, ab.hb, f.hb)) else z
  }

  function FeaturesOf(f: Frame): Features { Features(f.rms, f.kurtosis) }

  /** The fusion's channels: signed calibration z-scores of kurtosis and RMS, then the foreign ones. */
  function Channels(cal: Calibration, f: Frame): seq<B.Score>
    requires cal.Calibrated?
  {
    [B.Number((f.kurtosis - cal.mean.kurtosis) / cal.kurtosisStd), B.Number((f.rms - cal.mean.rms) / cal.rmsStd)] + f.extra
  }

  /** The fused posterior, once calibrated. */
  function Fused(c: Config, cal: Calibration, f: Frame): Option<real>
    requires c.Valid()
  {
    if c.fusion.Some? && cal.Calibrated?
    then Some(B.Posterior(c.exp, c.fusion.value.prior, B.Evidence(c.fusion.value, Channels(cal, f)))) else None
  }

  function EvidenceOf(c: Config, cal: Calibration, ab: Baselines, f: Frame): Evidence
    requires c.Valid()
  {
    Evidence(f.kurtosis, f.crest, f.imuCrest, CalibrationZ(cal, FeaturesOf(f)), AdaptiveZ(c.sqrt, ab, f), Fused(c, cal, f),
             f.hb, ab.hb.nUpdates >= AB_WARMUP_FRAMES, Score(c.sqrt, ab.hb, f.hb))
  }

  /** A frame is scored with the calibration that it may itself complete. */
  function Scoring(c: Config, s: State, f: Frame): Calibration
    requires c.Valid()
  {
    Collect(c.sqrt, s.cal, FeaturesOf(f))
  }

  function Raw(c: Config, s: State, f: Frame): Alert
    requires c.Valid()
  {
    RawLevel(c.thresholds, EvidenceOf(c, Scoring(c, s, f), s.ab, f))
  }

  function Decided(c: Config, s: State, f: Frame): Hysteresis
    requires c.Valid()
  {
    Persist(s.alert, Raw(c, s, f))
  }

  /** A drift report on an OK frame resets the baselines once enough OK frames are buffered. */
  predicate Resets(s: State, f: Frame, alert: Alert) {
    f.hst && alert == OK && f.drift && |s.feats| >= DRIFT_MIN_FRAMES
  }

  function ClearedAll(ab: Baselines): Baselines {
    Baselines(Cleared(ab.kurtosis), Cleared(ab.crest), Cleared(ab.rms), Cleared(ab.hb))
  }

  function ObserveFrame(ab: Baselines, f: Frame, healthy: bool): Baselines {
    Baselines(Observe(ab.kurtosis, f.kurtosis, healthy), Observe(ab.crest, f.crest, healthy),
              Observe(ab.rms, f.rms, healthy), Observe(ab.hb, f.hb, healthy))
  }

  /** The newest features that the buffer keeps. */
  function Kept(feats: seq<Features>): (r: seq<Features>)
    ensures |r| <= |feats| && r == feats[|feats| - |r|..]
    ensures |r| == |feats| || |r| == FEATURE_BUFFER
  {
    if |feats| > FEATURE_BUFFER then feats[|feats| - FEATURE_BUFFER..] else feats
  }

  /** The calibration that the warmed-up baselines stand for. */
  function FromBaselines(sqrt: real -> real, ab: Baselines): (c: Calibration)
    ensures c.Calibrated?
  {
    Calibrated(Features(CurrentMean(ab.rms), CurrentMean(ab.kurtosis)), CurrentStd(sqrt, ab.rms), CurrentStd(sqrt, ab.kurtosis))
  }

  /** The calibration after a frame: scored with, recomputed on a drift, then replaced by ready baselines. */
  function CalibrationAfter(c: Config, s: State, f: Frame, reset: bool, ab: Baselines): Calibration
    requires c.Valid() && (reset ==> s.feats != [])
  {
    var scoring := Scoring(c, s, f);
    if ab.rms.nUpdates >= AB_WARMUP_FRAMES then FromBaselines(c.sqrt, ab)
    else if reset && scoring.Calibrated? then FromSamples(c.sqrt, s.feats)
    else scoring
  }

  /** One frame; a replayed one changes nothing. */
  function Step(c: Config, s: State, f: Frame): State
    requires c.Valid()
  {
    if Replayed(s, f) then s
    else
      var alert := Decided(c, s, f);
      var reset := Resets(s, f, alert.sent);
      var ab := ObserveFrame(if reset then ClearedAll(s.ab) else s.ab, f, alert.sent == OK);
      var feats := if f.hst && alert.sent == OK then Kept(s.feats + [FeaturesOf(f)]) else s.feats;
      State(f.id, alert, ab, CalibrationAfter(c, s, f, reset, ab), feats)
  }

  function Run(c: Config, s: State, frames: seq<Frame>): State
    requires c.Valid()
    decreases |frames|
  {
    if frames == [] then s else Step(c, Run(c, s, frames[..|frames| - 1]), frames[|frames| - 1])
  }

  // ----- The replay gate

  /** Frame i of a run passes the gate. */
  predicate AcceptedAt(c: Config, s: State, frames: seq<Frame>, i: nat)
    requires c.Valid()
    requires i < |frames|
  {
    !Replayed(Run(c, s, frames[..i]), frames[i])
  }

  lemma {:induction false} LastIdIsMaximum(c: Config, s: State, frames: seq<Frame>)
    requires c.Valid()
    requires s.lastId == -1
    ensures forall j :: 0 <= j < |frames| ==> frames[j].id <= Run(c, s, frames).lastId
    ensures if frames == [] then Run(c, s, frames).lastId == -1
            else exists j :: 0 <= j < |frames| && frames[j].id == Run(c, s, frames).lastId
    decreases |frames|
  {
    hide Decided, Resets, ObserveFrame, ClearedAll, CalibrationAfter, Config.Valid;
    if frames != [] {
      var prefix := frames[..|frames| - 1];
      LastIdIsMaximum(c, s, prefix);
      if Replayed(Run(c, s, prefix), frames[|frames| - 1]) {
        var j :| 0 <= j < |prefix| && prefix[j].id == Run(c, s, prefix).lastId;
        assert frames[j].id == Run(c, s, frames).lastId;
      } else {
        assert frames[|frames| - 1].id == Run(c, s, frames).lastId;
      }
    }
  }

  /** From a fresh connection the gate accepts exactly the strict running maxima of the frame ids. */
  lemma GateAcceptsRunningMaxima(c: Config, s: State, frames: seq<Frame>, i: nat)
    requires c.Valid()
    requires s.lastId == -1 && i < |frames|
    ensures AcceptedAt(c, s, frames, i) <==> forall j :: 0 <= j < i ==> frames[j].id < frames[i].id
  {
    hide Run;
    var prefix := frames[..i];
    LastIdIsMaximum(c, s, prefix);
    if !AcceptedAt(c, s, frames, i) {
      var j :| 0 <= j < |prefix| && prefix[j].id == Run(c, s, prefix).lastId;
      assert frames[j].id >= frames[i].id;
    }
    assert forall j :: 0 <= j < i ==> prefix[j] == frames[j];
  }

  // ----- The history of a run

  /** What happened on one accepted frame. */
  datatype Event = Event(frame: Frame, raw: Alert, alert: Alert, reset: bool)

  function EventOf(c: Config, s: State, f: Frame): Event
    requires c.Valid()
  {
    var sent := Decided(c, s, f).sent;
    Event(f, Raw(c, s, f), sent, Resets(s, f, sent))
  }

  /** The events of a run's accepted frames, in order. */
  function History(c: Config, s: State, frames: seq<Frame>): seq<Event>
    requires c.Valid()
    decreases |frames|
  {
    if frames == [] then [] else
      var prefix, f := frames[..|frames| - 1], frames[|frames| - 1];
      if Replayed(Run(c, s, prefix), f) then History(c, s, prefix)
      else History(c, s, prefix) + [EventOf(c, Run(c, s, prefix), f)]
  }

  function Raws(events: seq<Event>): (r: seq<Alert>)
    ensures |r| == |events| && forall i :: 0 <= i < |events| ==> r[i] == events[i].raw
  {
    if events == [] then [] else Raws(events[..|events| - 1]) + [events[|events| - 1].raw]
  }

  /** The values of one feature on the frames whose emitted alert was OK. */
  function Healthy(events: seq<Event>, feature: Feature): seq<real>
    decreases |events|
  {
    if events == [] then [] else
      var e := events[|events| - 1];
      Healthy(events[..|events| - 1], feature) + (if e.alert == OK then [Value(e.frame, feature)] else [])
  }

  /** Event r is the last reset of a history. */
  predicate LastReset(events: seq<Event>, r: int) {
    0 <= r < |events| && events[r].reset && forall k :: r < k < |events| ==> !events[k].reset
  }

  predicate NoReset(events: seq<Event>) { forall k :: 0 <= k < |events| ==> !events[k].reset }

  /** The state of one baseline as the history alone determines it. */
  ghost predicate LearnedSinceReset(initial: Baseline, now: Baseline, events: seq<Event>, feature: Feature) {
    && (NoReset(events) ==> now == LearnAll(initial, Healthy(events, feature)))
    && (forall r :: LastReset(events, r) ==> now == LearnAll(Cleared(initial), Healthy(events[r..], feature)))
  }

  /** Every history has a last reset or none. */
  lemma {:induction false} ResetOrNone(events: seq<Event>) returns (r: int)
    ensures NoReset(events) || LastReset(events, r)
    decreases |events|
  {
    r := 0;
    if events != [] {
      var n := |events| - 1;
      if events[n].reset {
        r := n;
      } else {
        r := ResetOrNone(events[..n]);
        assert forall k :: 0 <= k < n ==> events[..n][k] == events[k];
      }
    }
  }

  lemma HealthyStep(events: seq<Event>, e: Event, feature: Feature, b: Baseline)
    ensures LearnAll(b, Healthy(events + [e], feature))
         == Observe(LearnAll(b, Healthy(events, feature)), Value(e.frame, feature), e.alert == OK)
  {
    hide Learn;
    var all := events + [e];
    assert all[..|events|] == events && all[|events|] == e;
    var xs := Healthy(events, feature);
    if e.alert == OK {
      assert (xs + [Value(e.frame, feature)])[..|xs|] == xs;
    } else {
      assert xs + [] == xs;
    }
  }

  lemma LearnedStep(initial: Baseline, before: Baseline, events: seq<Event>, e: Event, feature: Feature, after: Baseline)
    requires LearnedSinceReset(initial, before, events, feature)
    requires Cleared(before) == Cleared(initial)
    requires e.reset ==> e.alert == OK
    requires after == Observe(if e.reset then Cleared(before) else before, Value(e.frame, feature), e.alert == OK)
    ensures LearnedSinceReset(initial, after, events + [e], feature)
  {
    hide Learn, LearnAll, Healthy, Cleared;
    var all := events + [e];
    assert forall k :: 0 <= k < |events| ==> all[k] == events[k];
    assert all[|events|] == e;
    if NoReset(all) {
      assert NoReset(events) by {
        assert forall k :: 0 <= k < |events| ==> !all[k].reset;
      }
      HealthyStep(events, e, feature, initial);
    }
    forall r | LastReset(all, r) ensures after == LearnAll(Cleared(initial), Healthy(all[r..], feature)) {
      if r == |events| {
        assert all[r..] == [] + [e];
        HealthyStep([], e, feature, Cleared(initial));
        NothingLearned(Cleared(initial), feature);
      } else {
        assert LastReset(events, r) by {
          assert forall k :: r < k < |events| ==> !all[k].reset;
        }
        assert all[r..] == events[r..] + [e];
        HealthyStep(events[r..], e, feature, Cleared(initial));
        assert !all[|events|].reset;
      }
    }
  }

  lemma NothingLearned(b: Baseline, feature: Feature)
    ensures LearnAll(b, Healthy([], feature)) == b
  {
  }

  lemma NothingHappened(b: Baseline, feature: Feature)
    ensures LearnedSinceReset(b, b, [], feature)
  {
  }

  lemma StepOfBaseline(c: Config, s: State, f: Frame, feature: Feature)
    requires c.Valid()
    requires !Replayed(s, f)
    ensures var e := EventOf(c, s, f); var b := s.ab.Of(feature);
            && Step(c, s, f).ab.Of(feature) == Observe(if e.reset then Cleared(b) else b, Value(f, feature), e.alert == OK)
            && (e.reset ==> e.alert == OK)
            && Step(c, s, f).alert.sent == e.alert
  {
    hide Decided, Learn, Cleared, Raw;
  }

  lemma ObserveKeepsParameters(b: Baseline, x: real, healthy: bool)
    ensures Cleared(Observe(b, x, healthy)) == Cleared(b)
    ensures Cleared(Cleared(b)) == Cleared(b)
  {
  }

  /** Over every run, each baseline is the fold over exactly the frames whose emitted alert was OK since the
      last drift reset, the frame of the reset included. */
  lemma {:induction false} BaselinesLearnOkFramesSinceReset(c: Config, s: State, frames: seq<Frame>, feature: Feature)
    requires c.Valid()
    ensures LearnedSinceReset(s.ab.Of(feature), Run(c, s, frames).ab.Of(feature), History(c, s, frames), feature)
    ensures Cleared(Run(c, s, frames).ab.Of(feature)) == Cleared(s.ab.Of(feature))
    decreases |frames|
  {
    hide Step, EventOf, Cleared, Observe, LearnedSinceReset;
    if frames == [] {
      NothingHappened(s.ab.Of(feature), feature);
    } else {
      var prefix, f := frames[..|frames| - 1], frames[|frames| - 1];
      BaselinesLearnOkFramesSinceReset(c, s, prefix, feature);
      var before := Run(c, s, prefix);
      if Replayed(before, f) {
        ReplayChangesNothing(c, before, f);
      } else {
        StepOfBaseline(c, before, f, feature);
        EventFrame(c, before, f);
        LearnedStep(s.ab.Of(feature), before.ab.Of(feature), History(c, s, prefix), EventOf(c, before, f), feature,
                    Step(c, before, f).ab.Of(feature));
        var b := before.ab.Of(feature);
        ObserveKeepsParameters(b, Value(f, feature), EventOf(c, before, f).alert == OK);
        ObserveKeepsParameters(Cleared(b), Value(f, feature), EventOf(c, before, f).alert == OK);
      }
    }
  }

  lemma ReplayChangesNothing(c: Config, s: State, f: Frame)
    requires c.Valid()
    requires Replayed(s, f)
    ensures Step(c, s, f) == s
  {
  }

  lemma EventFrame(c: Config, s: State, f: Frame)
    requires c.Valid()
    ensures EventOf(c, s, f).frame == f
  {
  }

  /** So the mean a baseline reports stays within the range of the frames emitted as OK since the last reset
      (event r, or the start of the run), whatever the other frames held. */
  lemma MeanWithinOkFrames(c: Config, s: State, frames: seq<Frame>, feature: Feature, r: nat, lo: real, hi: real)
    requires c.Valid()
    requires var b := s.ab.Of(feature); b == Cleared(b) && b.warmupN >= 1 && 0.0 <= b.alpha <= 1.0
    requires var events := History(c, s, frames);
             && (LastReset(events, r) || (NoReset(events) && r == 0))
             && Healthy(events[r..], feature) != [] && Within(Healthy(events[r..], feature), lo, hi)
    ensures lo <= CurrentMean(Run(c, s, frames).ab.Of(feature)) <= hi
  {
    hide Run, History, Healthy, LearnAll, Cleared, CurrentMean, Within;
    var events, b := History(c, s, frames), s.ab.Of(feature);
    BaselinesLearnOkFramesSinceReset(c, s, frames, feature);
    MeanWithinSamples(b, Healthy(events[r..], feature), lo, hi);
    if !LastReset(events, r) {
      assert events[0..] == events;
    }
  }

  // ----- The baselines advance together

  predicate Lockstep(ab: Baselines) {
    ab.kurtosis.nUpdates == ab.crest.nUpdates == ab.rms.nUpdates == ab.hb.nUpdates
  }

  lemma {:induction false} BaselinesAdvanceTogether(c: Config, s: State, frames: seq<Frame>)
    requires c.Valid()
    requires Lockstep(s.ab)
    ensures Lockstep(Run(c, s, frames).ab)
    decreases |frames|
  {
    hide Decided;
    if frames != [] {
      BaselinesAdvanceTogether(c, s, frames[..|frames| - 1]);
    }
  }

  /** So checking the kurtosis baseline alone is enough: after any run it is ready exactly when all four are,
      and the adaptive z-score is zero or the largest of all four. */
  lemma OneReadinessCheckIsEnough(c: Config, s: State, frames: seq<Frame>, f: Frame)
    requires c.Valid()
    requires Lockstep(s.ab)
    ensures var ab := Run(c, s, frames).ab;
            && (forall feature :: ab.Of(feature).nUpdates >= AB_WARMUP_FRAMES <==> ab.kurtosis.nUpdates >= AB_WARMUP_FRAMES)
            && (if ab.kurtosis.nUpdates >= AB_WARMUP_FRAMES
                then (forall feature :: AdaptiveZ(c.sqrt, ab, f) >= Score(c.sqrt, ab.Of(feature), Value(f, feature)))
                     && exists feature :: AdaptiveZ(c.sqrt, ab, f) == Score(c.sqrt, ab.Of(feature), Value(f, feature))
                else AdaptiveZ(c.sqrt, ab, f) == 0.0)
  {
    hide Run, Score;
    BaselinesAdvanceTogether(c, s, frames);
    var ab := Run(c, s, frames).ab;
    if ab.kurtosis.nUpdates >= AB_WARMUP_FRAMES {
      var z := AdaptiveZ(c.sqrt, ab, f);
      assert Value(f, KURTOSIS) == f.kurtosis && Value(f, CREST) == f.crest && Value(f, RMS) == f.rms && Value(f, HIGH_BAND) == f.hb;
      assert z == Score(c.sqrt, ab.Of(KURTOSIS), Value(f, KURTOSIS)) || z == Score(c.sqrt, ab.Of(CREST), Value(f, CREST))
             || z == Score(c.sqrt, ab.Of(RMS), Value(f, RMS)) || z == Score(c.sqrt, ab.Of(HIGH_BAND), Value(f, HIGH_BAND));
    }
  }

  // ----- The emitted alerts

  /** The hysteresis of a whole run is the alert engine's over the raw levels of the accepted frames, so the
      emitted alert has its closed form over them. */
  lemma {:induction false} AlertsFollowAcceptedFrames(c: Config, s: State, frames: seq<Frame>)
    requires c.Valid()
    requires s.alert == INITIAL
    ensures Run(c, s, frames).alert == AlertEngine.Run(Raws(History(c, s, frames)))
    ensures Emits(Raws(History(c, s, frames)), Run(c, s, frames).alert.sent)
    decreases |frames|
  {
    hide Raw, Resets, ObserveFrame, ClearedAll, Persist, Emits;
    if frames != [] {
      var prefix, f := frames[..|frames| - 1], frames[|frames| - 1];
      AlertsFollowAcceptedFrames(c, s, prefix);
      if !Replayed(Run(c, s, prefix), f) {
        var h, e := History(c, s, prefix), EventOf(c, Run(c, s, prefix), f);
        assert (h + [e])[..|h|] == h;
        assert Raws(h + [e]) == Raws(h) + [e.raw];
        assert (Raws(h) + [e.raw])[..|h|] == Raws(h);
      }
    }
    EmittedAlert(Raws(History(c, s, frames)));
  }

  /** The frame that event i of a run records: which frame of the run it is, and the state it met. */
  lemma {:induction false} EventAt(c: Config, s: State, frames: seq<Frame>, i: nat) returns (n: nat)
    requires c.Valid()
    requires i < |History(c, s, frames)|
    ensures n < |frames| && !Replayed(Run(c, s, frames[..n]), frames[n])
    ensures History(c, s, frames)[..i] == History(c, s, frames[..n])
    ensures History(c, s, frames)[i] == EventOf(c, Run(c, s, frames[..n]), frames[n])
    ensures Run(c, s, frames[..n + 1]) == Step(c, Run(c, s, frames[..n]), frames[n])
    decreases |frames|
  {
    hide Step, EventOf, Replayed, Config.Valid;
    var prefix := frames[..|frames| - 1];
    if i == |History(c, s, prefix)| {
      n := |frames| - 1;
      assert frames[..n + 1] == frames;
    } else {
      n := EventAt(c, s, prefix, i);
      assert prefix[..n] == frames[..n] && prefix[..n + 1] == frames[..n + 1];
    }
  }

  /** A run's last accepted frame, as its hysteresis remembers it. */
  lemma {:induction false} HysteresisRemembers(c: Config, s: State, frames: seq<Frame>)
    requires c.Valid()
    requires s.alert == INITIAL
    ensures var events, h := History(c, s, frames), Run(c, s, frames).alert;
            if events == [] then h == INITIAL
            else h.sent == events[|events| - 1].alert && (h.warnStreak == 0 <==> events[|events| - 1].raw == OK)
    decreases |frames|
  {
    hide Raw, Resets, ObserveFrame, ClearedAll, CalibrationAfter, Config.Valid;
    if frames != [] {
      HysteresisRemembers(c, s, frames[..|frames| - 1]);
    }
  }

  /** Over every run, an anomalous frame (event i, with a raw level above OK) is emitted as OK exactly when no
      alert stood and the frame before it was not anomalous. In that case all four baselines learn it, after the
      reset if it reports a drift; otherwise they stay as they were. */
  lemma AnomalousFrameLearned(c: Config, s: State, frames: seq<Frame>, i: nat) returns (n: nat)
    requires c.Valid()
    requires s.alert == INITIAL
    requires i < |History(c, s, frames)| && History(c, s, frames)[i].raw != OK
    ensures n < |frames| && History(c, s, frames)[i].frame == frames[n]
    ensures var events := History(c, s, frames);
            var learned := i == 0 || (events[i - 1].alert == OK && events[i - 1].raw == OK);
            var before, after := Run(c, s, frames[..n]).ab, Run(c, s, frames[..n + 1]).ab;
            && (events[i].alert == OK <==> learned)
            && (learned ==> after == ObserveFrame(if events[i].reset then ClearedAll(before) else before, frames[n], true))
            && (!learned ==> after == before)
  {
    n := EventAt(c, s, frames, i);
    hide Raw, Run, History, Config.Valid, CalibrationAfter, Learn;
    HysteresisRemembers(c, s, frames[..n]);
    var events := History(c, s, frames);
    if i > 0 {
      assert events[..i][i - 1] == events[i - 1];
    }
  }

  /** A first frame with a kurtosis of 7 and enough energy in the high band: a raw WARN, emitted as OK, and the
      kurtosis baseline's mean is then 7. */
  lemma FirstAnomalyIsLearned(c: Config, f: Frame)
    requires c.Valid() && c.thresholds == DEFAULT_THRESHOLDS
    requires f.kurtosis == 7.0 && f.crest == 3.0 && f.imuCrest == 5.0 && f.hb == 0.5
    ensures var blank := Baseline(0.00005, 30, 0, 0.0, 0.0, 0.0, FLOOR, 0);
            var s := Initial(Baselines(blank, blank, blank, blank));
            && Raw(c, s, f) == WARN && Step(c, s, f).alert.sent == OK
            && Step(c, s, f).ab.kurtosis.nUpdates == 1 && CurrentMean(Step(c, s, f).ab.kurtosis) == 7.0
  {
    hide Config.Valid, CalibrationAfter;
  }

  // ----- The feature buffer

  /** The features of the frames emitted as OK while the tree detector runs. */
  function LearnedFeatures(events: seq<Event>): (fs: seq<Features>)
    ensures |fs| <= |events|
    decreases |events|
  {
    if events == [] then [] else
      var e := events[|events| - 1];
      LearnedFeatures(events[..|events| - 1])
      + (if e.frame.hst && e.alert == OK then [Features(e.frame.rms, e.frame.kurtosis)] else [])
  }

  function Newest(fs: seq<Features>, n: nat): (r: seq<Features>)
    ensures |r| == if |fs| <= n then |fs| else n
  {
    if |fs| <= n then fs else fs[|fs| - n..]
  }

  lemma NewestStep(fs: seq<Features>, f: Features)
    ensures Kept(Newest(fs, 500) + [f]) == Newest(fs + [f], 500)
  {
  }

  /** Over every run, the buffer holds the newest 500 of them. */
  lemma {:induction false} BufferHoldsNewest(c: Config, s: State, frames: seq<Frame>)
    requires c.Valid()
    requires s.feats == []
    ensures Run(c, s, frames).feats == Newest(LearnedFeatures(History(c, s, frames)), 500)
    decreases |frames|
  {
    hide Raw, ObserveFrame, ClearedAll, Config.Valid, CalibrationAfter, Persist, Kept, Newest;
    if frames == [] {
      assert Newest([], 500) == [];
    } else {
      var prefix, f := frames[..|frames| - 1], frames[|frames| - 1];
      BufferHoldsNewest(c, s, prefix);
      var before, h := Run(c, s, prefix), History(c, s, prefix);
      if !Replayed(before, f) {
        var e := EventOf(c, before, f);
        assert (h + [e])[..|h|] == h;
        if f.hst && e.alert == OK {
          NewestStep(LearnedFeatures(h), FeaturesOf(f));
        } else {
          assert LearnedFeatures(h) + [] == LearnedFeatures(h);
        }
      }
    }
  }

  /** Event i resets the baselines exactly when it is an OK frame, the tree detector runs and reports a drift, and
      at least fifty frames before it were learned. */
  lemma ResetsExactly(c: Config, s: State, frames: seq<Frame>, i: nat)
    requires c.Valid()
    requires s.feats == [] && i < |History(c, s, frames)|
    ensures var e, before := History(c, s, frames)[i], History(c, s, frames)[..i];
            e.reset <==> e.frame.hst && e.alert == OK && e.frame.drift && |LearnedFeatures(before)| >= 50
  {
    hide Raw, Run, History, Config.Valid, Persist, LearnedFeatures;
    var n := EventAt(c, s, frames, i);
    BufferHoldsNewest(c, s, frames[..n]);
  }

  // ----- The calibration

  function HistoryFeatures(events: seq<Event>): (fs: seq<Features>)
    ensures |fs| == |events|
    ensures forall i :: 0 <= i < |events| ==> fs[i] == Features(events[i].frame.rms, events[i].frame.kurtosis)
  {
    seq(|events|, i requires 0 <= i < |events| => FeaturesOf(events[i].frame))
  }

  predicate Calibrating(cal: Calibration, events: seq<Event>) {
    cal.Collecting? ==> |events| < 30 && cal.buffer == HistoryFeatures(events)
  }

  predicate StartsFresh(s: State) { s.cal == Collecting([]) && s.feats == [] && s.ab.rms.nUpdates == 0 }

  lemma {:induction false} CollectsHistory(c: Config, s: State, frames: seq<Frame>)
    requires c.Valid()
    requires s.cal == Collecting([])
    ensures Calibrating(Run(c, s, frames).cal, History(c, s, frames))
    decreases |frames|
  {
    hide Raw, ObserveFrame, ClearedAll, Config.Valid, FromSamples, FromBaselines, Persist, HistoryFeatures;
    if frames == [] {
      assert HistoryFeatures([]) == [];
    } else {
      var prefix, f := frames[..|frames| - 1], frames[|frames| - 1];
      CollectsHistory(c, s, prefix);
      if !Replayed(Run(c, s, prefix), f) {
        var h := History(c, s, prefix);
        assert HistoryFeatures(h + [EventOf(c, Run(c, s, prefix), f)]) == HistoryFeatures(h) + [FeaturesOf(f)];
      }
    }
  }

  /** After n accepted frames, no baseline has learned more than n, and before the thirtieth the satellite collects. */
  predicate Early(s: State, n: nat) { s.ab.rms.nUpdates <= n && (n < 30 ==> s.cal.Collecting?) }

  lemma EarlyStep(c: Config, s: State, f: Frame, n: nat)
    requires c.Valid() && !Replayed(s, f)
    requires Early(s, n) && |s.feats| <= n && (s.cal.Collecting? ==> |s.cal.buffer| == n)
    ensures Early(Step(c, s, f), n + 1)
  {
    hide Raw, Config.Valid, FromSamples, FromBaselines, Persist, Kept, Max, DecayedVariance, Degrees;
  }

  lemma {:induction false} NotReadyEarly(c: Config, s: State, frames: seq<Frame>)
    requires c.Valid()
    requires StartsFresh(s)
    ensures Early(Run(c, s, frames), |History(c, s, frames)|)
    decreases |frames|
  {
    hide Step, EventOf, Config.Valid, Replayed;
    if frames != [] {
      var prefix, f := frames[..|frames| - 1], frames[|frames| - 1];
      NotReadyEarly(c, s, prefix);
      var before := Run(c, s, prefix);
      if Replayed(before, f) {
        ReplayChangesNothing(c, before, f);
      } else {
        CollectsHistory(c, s, prefix);
        BufferHoldsNewest(c, s, prefix);
        EarlyStep(c, before, f, |History(c, s, prefix)|);
      }
    }
  }

  /** The calibration is the mean and the standard deviation of the RMS and kurtosis baselines. */
  ghost predicate CalibratedLike(sqrt: real -> real, cal: Calibration, rms: Baseline, kurtosis: Baseline) {
    && cal.Calibrated?
    && cal.mean.rms == CurrentMean(rms) && cal.mean.kurtosis == CurrentMean(kurtosis)
    && cal.rmsStd == CurrentStd(sqrt, rms) && cal.kurtosisStd == CurrentStd(sqrt, kurtosis)
  }

  /** What the frame of event `e`, behind the history `h`, does to the calibration. The first 29 frames leave none.
      The thirtieth is scored with the mean and deviation of those thirty frames and leaves them, and every later
      frame is scored with what its predecessor left. A drift reset leaves those of the newest frames learned, and a
      frame after which the baselines are ready leaves theirs; any other frame leaves what it was scored with. */
  ghost predicate CalibrationRule(sqrt: real -> real, h: seq<Event>, e: Event, learned: seq<Features>,
                                  before: Calibration, scoring: Calibration, after: State) {
    var i, ready := |h|, after.ab.rms.nUpdates >= 30;
    && (i < 29 ==> scoring == after.cal == Collecting(HistoryFeatures(h + [e])))
    && (i == 29 ==> CalibratedOn(scoring, HistoryFeatures(h + [e])))
    && (i >= 30 ==> scoring == before && scoring.Calibrated?)
    && (ready ==> CalibratedLike(sqrt, after.cal, after.ab.rms, after.ab.kurtosis))
    && (e.reset ==> CalibratedOn(after.cal, learned))
    && (!ready && !e.reset ==> after.cal == scoring)
  }

  lemma CalibrationFollows(c: Config, s: State, frames: seq<Frame>, i: nat) returns (n: nat)
    requires c.Valid()
    requires StartsFresh(s) && i < |History(c, s, frames)|
    ensures n < |frames| && History(c, s, frames)[i].frame == frames[n]
    ensures var before, after, events := Run(c, s, frames[..n]), Run(c, s, frames[..n + 1]), History(c, s, frames);
            CalibrationRule(c.sqrt, events[..i], events[i], Newest(LearnedFeatures(events[..i]), 500),
                            before.cal, Scoring(c, before, frames[n]), after)
  {
    assert s.cal == Collecting([]) && s.feats == [];
    hide *;
    n := EventAt(c, s, frames, i);
    CollectsHistory(c, s, frames[..n]);
    NotReadyEarly(c, s, frames[..n]);
    BufferHoldsNewest(c, s, frames[..n]);
    CalibrationStep(c, Run(c, s, frames[..n]), frames[n], History(c, s, frames[..n]));
    EventFrame(c, Run(c, s, frames[..n]), frames[n]);
  }

  lemma CalibrationStep(c: Config, s: State, f: Frame, h: seq<Event>)
    requires c.Valid() && !Replayed(s, f)
    requires Calibrating(s.cal, h) && Early(s, |h|)
    requires |s.feats| <= |h|
    ensures CalibrationRule(c.sqrt, h, EventOf(c, s, f), s.feats, s.cal, Scoring(c, s, f), Step(c, s, f))
  {
    ConfigHasSqrt(c);
    hide Raw, Persist, FromSamples, HistoryFeatures, CalibratedOn, CurrentMean, CurrentStd, Config.Valid, IsSqrt;
    var e := EventOf(c, s, f);
    assert HistoryFeatures(h + [e]) == HistoryFeatures(h) + [FeaturesOf(f)];
    if |h| == 29 {
      SamplesCalibrate(c.sqrt, HistoryFeatures(h + [e]));
    }
    if e.reset {
      SamplesCalibrate(c.sqrt, s.feats);
    }
  }

  lemma ConfigHasSqrt(c: Config)
    requires c.Valid()
    ensures IsSqrt(c.sqrt)
  {
  }

  // ----- The satellite object

  class Satellite {
    const config: Config
    const kurtosis: AdaptiveBaseline
    const crest: AdaptiveBaseline
    const rms: AdaptiveBaseline
    const hb: AdaptiveBaseline
    var lastId: int
    var warnStreak: nat
    var okStreak: nat
    var sentAlert: Alert
    var cal: Calibration
    var feats: seq<Features>

    ghost predicate Valid()
      reads this
    {
      && config.Valid()
      && kurtosis != crest && kurtosis != rms && kurtosis != hb && crest != rms && crest != hb && rms != hb
      && kurtosis.sqrt == crest.sqrt == rms.sqrt == hb.sqrt == config.sqrt
    }

    function Ab(): Baselines
      reads kurtosis, crest, rms, hb
    {
      Baselines(kurtosis.State(), crest.State(), rms.State(), hb.State())
    }

    ghost function Current(): State
      reads this, kurtosis, crest, rms, hb
    {
      State(lastId, Hysteresis(warnStreak, okStreak, sentAlert), Ab(), cal, feats)
    }

    constructor (config: Config, alpha: real)
      requires config.Valid()
      ensures Valid() && fresh(kurtosis) && fresh(crest) && fresh(rms) && fresh(hb)
      ensures this.config == config && Lockstep(Ab())
      ensures Current() == Initial(ClearedAll(Ab()))
    {
      this.config := config;
      kurtosis := new AdaptiveBaseline(config.sqrt, alpha, AB_WARMUP_FRAMES);
      crest := new AdaptiveBaseline(config.sqrt, alpha, AB_WARMUP_FRAMES);
      rms := new AdaptiveBaseline(config.sqrt, alpha, AB_WARMUP_FRAMES);
      hb := new AdaptiveBaseline(config.sqrt, alpha, AB_WARMUP_FRAMES);
      lastId, warnStreak, okStreak, sentAlert, cal, feats := -1, 0, 0, OK, Collecting([]), [];
    }

    /** The fused posterior of the signed z-scores, once calibrated. */
    method FuseScores(f: Frame) returns (p: Option<real>)
      requires Valid()
      ensures p == Fused(config, cal, f)
    {
      hide Channels;
      p := None;
      if config.fusion.Some? && cal.Calibrated? {
        var posterior := B.Fuse(config.exp, config.fusion.value, Channels(cal, f));
        p := Some(posterior);
      }
    }

    method ScoreFrame(f: Frame) returns (e: Evidence)
      requires Valid()
      ensures e == EvidenceOf(config, cal, Ab(), f)
    {
      hide Score, CalibrationZ, Fused;
      var zAdapt := 0.0;
      var hbZ := hb.ZScore(f.hb);
      if kurtosis.nUpdates >= AB_WARMUP_FRAMES {
        var zKurtosis := kurtosis.ZScore(f.kurtosis);
        var zCrest := crest.ZScore(f.crest);
        var zRms := rms.ZScore(f.rms);
        zAdapt := Max(Max(zKurtosis, zCrest), zRms);
        if hb.nUpdates >= AB_WARMUP_FRAMES {
          zAdapt := Max(zAdapt, hbZ);
        }
      }
      var posterior := FuseScores(f);
      e := Evidence(f.kurtosis, f.crest, f.imuCrest, CalibrationZ(cal, FeaturesOf(f)), zAdapt, posterior, f.hb,
                    hb.nUpdates >= AB_WARMUP_FRAMES, hbZ);
    }

    method ResetBaselines()
      requires Valid()
      modifies kurtosis, crest, rms, hb
      ensures Ab() == ClearedAll(old(Ab()))
    {
      hide Cleared;
      kurtosis.Reset();
      crest.Reset();
      rms.Reset();
      hb.Reset();
    }

    method UpdateBaselines(f: Frame, healthy: bool)
      requires Valid()
      modifies kurtosis, crest, rms, hb
      ensures Ab() == ObserveFrame(old(Ab()), f, healthy)
    {
      hide Observe;
      kurtosis.Update(f.kurtosis, healthy);
      crest.Update(f.crest, healthy);
      rms.Update(f.rms, healthy);
      hb.Update(f.hb, healthy);
    }

    /** Learning the features of an OK frame, and the reset when it reports a drift. */
    method LearnFeatures(f: Frame) returns (reset: bool)
      requires Valid()
      modifies this`cal, this`feats, kurtosis, crest, rms, hb
      ensures reset == Resets(old(Current()), f, sentAlert)
      ensures Ab() == if reset then ClearedAll(old(Ab())) else old(Ab())
      ensures cal == if reset && old(cal).Calibrated? then FromSamples(config.sqrt, old(feats)) else old(cal)
      ensures feats == if f.hst && sentAlert == OK then Kept(old(feats) + [FeaturesOf(f)]) else old(feats)
    {
      hide FromSamples, ClearedAll;
      reset := false;
      if f.hst && sentAlert == OK {
        if f.drift && |feats| >= DRIFT_MIN_FRAMES {
          if cal.Calibrated? {
            cal := FromSamples(config.sqrt, feats);
          }
          ResetBaselines();
          reset := true;
        }
        feats := Kept(feats + [FeaturesOf(f)]);
      }
    }

    /** The frame's path through the pipeline; None reports a replay. */
    method ProcessFrame(f: Frame) returns (result: Option<Alert>)
      requires Valid()
      modifies this, kurtosis, crest, rms, hb
      ensures Valid()
      ensures Current() == Step(config, old(Current()), f)
      ensures result == if Replayed(old(Current()), f) then None else Some(sentAlert)
    {
      hide EvidenceOf, RawLevel, Persist, ClearedAll, ObserveFrame, Collect, FromSamples, FromBaselines, Kept, IsSqrt, IsExp;
      if lastId >= 0 && f.id <= lastId {
        return None;
      }
      lastId := f.id;
      cal := Collect(config.sqrt, cal, FeaturesOf(f));
      var e := ScoreFrame(f);
      sentAlert, warnStreak, okStreak := ComputeAlert(config.thresholds, e, warnStreak, okStreak, sentAlert);
      var reset := LearnFeatures(f);
      UpdateBaselines(f, sentAlert == OK);
      if rms.nUpdates >= AB_WARMUP_FRAMES {
        cal := FromBaselines(config.sqrt, Ab());
      }
      return Some(sentAlert);
    }
  }
}
