/** The per-frame alert engine: the raw level, the factory noise filter and the hysteresis that turns raw
    levels into emitted alerts, with no learned model loaded. */
module AlertEngine {
  import opened Wrappers

  datatype Alert = OK | WARN | FAULT {
    function Severity(): nat {
      match this
      case OK => 0
      case WARN => 1
      case FAULT => 2
    }
  }

  function Worse(a: Alert, b: Alert): (r: Alert)
    ensures r == a || r == b
    ensures r.Severity() >= a.Severity() && r.Severity() >= b.Severity()
  {
    if a.Severity() >= b.Severity() then a else b
  }

  const WARN_PERSIST := 2
  const CLEAR_PERSIST := 3
  const FAULT_CLEAR_PERSIST := 8

  /** The configurable thresholds. */
  datatype Thresholds = Thresholds(kWarn: real, kFault: real, crestWarn: real, crestFault: real,
                                   imuCrestWarn: real, imuCrestFault: real, zWarn: real, zFault: real, zHb: real,
                                   highBandMin: real, pWarn: real, pFault: real)

  const DEFAULT_THRESHOLDS := Thresholds(6.0, 12.0, 5.0, 10.0, 9.0, 18.0, 4.0, 6.0, 3.0, 0.12, 0.70, 0.95)

  /** What the engine looks at in one frame: its features, the calibration z-score, the largest adaptive
      z-score, the fused posterior if there is one, and the high-band energy ratio with its own baseline's readiness and
      z-score. */
  datatype Evidence = Evidence(kurtosis: real, crest: real, imuCrest: real, zScore: real, zAdapt: real,
                               posterior: Option<real>, hb: real, hbReady: bool, hbZ: real)

  function ThresholdLevel(c: Thresholds, e: Evidence): Alert {
    if e.kurtosis >= c.kFault || e.zScore >= 5.0 || e.zAdapt >= c.zFault then FAULT
    else if e.kurtosis >= c.kWarn || e.zScore >= 3.0 || e.zAdapt >= c.zWarn then WARN
    else if e.crest >= c.crestFault || e.imuCrest >= c.imuCrestFault then FAULT
    else if e.crest >= c.crestWarn || e.imuCrest >= c.imuCrestWarn then WARN
    else OK
  }

  predicate Reaches(posterior: Option<real>, threshold: real) { posterior.Some? && posterior.value >= threshold }

  function Escalated(c: Thresholds, level: Alert, posterior: Option<real>): Alert {
    if Reaches(posterior, c.pFault) then Worse(level, FAULT)
    else if Reaches(posterior, c.pWarn) then Worse(level, WARN)
    else level
  }

  /** The raw level: thresholds, escalation by the posterior, then the high-band filter. */
  function RawLevel(c: Thresholds, e: Evidence): (r: Alert)
    ensures r != OK ==> e.hb >= c.highBandMin || (e.hbReady && e.hbZ >= c.zHb)
  {
    var level := Escalated(c, ThresholdLevel(c, e), e.posterior);
    if level != OK && e.hb < c.highBandMin && !(e.hbReady && e.hbZ >= c.zHb) then OK else level
  }

  datatype Hysteresis = Hysteresis(warnStreak: nat, okStreak: nat, sent: Alert)

  const INITIAL := Hysteresis(0, 0, OK)

  function ClearNeed(sent: Alert): nat { if sent == FAULT then FAULT_CLEAR_PERSIST else CLEAR_PERSIST }

  /** One frame of persistence: two consecutive non-OK frames raise, enough consecutive OK frames clear. */
  function Persist(s: Hysteresis, raw: Alert): Hysteresis {
    var warnStreak := if raw != OK then s.warnStreak + 1 else 0;
    var okStreak := if raw != OK then 0 else s.okStreak + 1;
    var final :=
      if warnStreak >= WARN_PERSIST then raw
      else if okStreak >= ClearNeed(s.sent) then OK
      else s.sent;
    Hysteresis(warnStreak, okStreak, final)
  }

  method ComputeAlert(c: Thresholds, e: Evidence, warnStreak: nat, okStreak: nat, sent: Alert)
    returns (final: Alert, warn: nat, ok: nat)
    ensures Hysteresis(warn, ok, final) == Persist(Hysteresis(warnStreak, okStreak, sent), RawLevel(c, e))
  {
    warn, ok := warnStreak, okStreak;
    var raw := OK;
    if e.kurtosis >= c.kFault || e.zScore >= 5.0 || e.zAdapt >= c.zFault {
      raw := FAULT;
    } else if e.kurtosis >= c.kWarn || e.zScore >= 3.0 || e.zAdapt >= c.zWarn {
      raw := WARN;
    } else if e.crest >= c.crestFault || e.imuCrest >= c.imuCrestFault {
      raw := FAULT;
    } else if e.crest >= c.crestWarn || e.imuCrest >= c.imuCrestWarn {
      raw := WARN;
    }
    if e.posterior.Some? {
      if e.posterior.value >= c.pFault {
        raw := Worse(raw, FAULT);
      } else if e.posterior.value >= c.pWarn {
        raw := Worse(raw, WARN);
      }
    }
    if raw != OK && e.hb < c.highBandMin {
      if !(e.hbReady && e.hbZ >= c.zHb) {
        raw := OK;
      }
    }
    if raw != OK {
      warn := warn + 1;
      ok := 0;
    } else {
      ok := ok + 1;
      warn := 0;
    }
    if warn >= WARN_PERSIST {
      final := raw;
    } else if ok >= (if sent == FAULT then FAULT_CLEAR_PERSIST else CLEAR_PERSIST) {
      final := OK;
    } else {
      final := sent;
    }
  }

  // ----- The raw level

  /** No FAULT threshold lies below its WARN threshold. */
  predicate Ordered(c: Thresholds) {
    && c.kWarn <= c.kFault && c.crestWarn <= c.crestFault && c.imuCrestWarn <= c.imuCrestFault
    && c.zWarn <= c.zFault && c.pWarn <= c.pFault
  }

  /** Some evidence reaches its WARN threshold. */
  predicate Suspicious(c: Thresholds, e: Evidence) {
    || e.kurtosis >= c.kWarn || e.zScore >= 3.0 || e.zAdapt >= c.zWarn
    || e.crest >= c.crestWarn || e.imuCrest >= c.imuCrestWarn || Reaches(e.posterior, c.pWarn)
  }

  predicate HighBandPresent(c: Thresholds, e: Evidence) { e.hb >= c.highBandMin || (e.hbReady && e.hbZ >= c.zHb) }

  /** With ordered thresholds the raw level is above OK exactly when some evidence reaches WARN and the high
      band is present; it is FAULT exactly when, besides, some evidence reaches its FAULT threshold, where a
      crest factor counts only if no kurtosis or z-score reaches WARN. */
  lemma RaisesExactlyWhen(c: Thresholds, e: Evidence)
    requires Ordered(c)
    ensures RawLevel(c, e) != OK <==> Suspicious(c, e) && HighBandPresent(c, e)
    ensures RawLevel(c, e) == FAULT <==>
              && HighBandPresent(c, e)
              && (|| e.kurtosis >= c.kFault || e.zScore >= 5.0 || e.zAdapt >= c.zFault || Reaches(e.posterior, c.pFault)
                  || ((e.crest >= c.crestFault || e.imuCrest >= c.imuCrestFault)
                      && e.kurtosis < c.kWarn && e.zScore < 3.0 && e.zAdapt < c.zWarn))
  {
  }

  // ----- Whole runs

  function Run(raws: seq<Alert>): Hysteresis {
    if raws == [] then INITIAL else Persist(Run(raws[..|raws| - 1]), raws[|raws| - 1])
  }

  /** The length of the OK run, or of the non-OK run, that ends a history. */
  function Trailing(raws: seq<Alert>, ok: bool): (n: nat)
    ensures n <= |raws|
    ensures forall i :: |raws| - n <= i < |raws| ==> (raws[i] == OK) == ok
    ensures n < |raws| ==> (raws[|raws| - n - 1] == OK) != ok
  {
    if raws == [] || (raws[|raws| - 1] == OK) != ok then 0 else Trailing(raws[..|raws| - 1], ok) + 1
  }

  /** Frames p - 1 and p are both non-OK. */
  predicate PairAt(raws: seq<Alert>, p: int) { 1 <= p < |raws| && raws[p - 1] != OK && raws[p] != OK }

  predicate LastPairAt(raws: seq<Alert>, p: int) {
    PairAt(raws, p) && forall q :: p < q < |raws| ==> !PairAt(raws, q)
  }

  /** The n frames ending with frame e are OK. */
  predicate QuietRun(raws: seq<Alert>, e: int, n: nat) {
    n - 1 <= e < |raws| && forall i :: e - n < i <= e ==> raws[i] == OK
  }

  /** An OK run of n frames lies wholly after frame p. */
  ghost predicate ClearedAfter(raws: seq<Alert>, p: int, n: nat) {
    exists e :: p + n <= e && QuietRun(raws, e, n)
  }

  /** The closed form of the emitted alert over a raw history: OK if no two adjacent frames were ever
      non-OK; else the raw level that ended the last such pair, unless an OK run long enough to clear
      that level has followed it. */
  ghost predicate Emits(raws: seq<Alert>, a: Alert) {
    && ((forall p :: !PairAt(raws, p)) ==> a == OK)
    && (forall p :: LastPairAt(raws, p) ==>
          a == if ClearedAfter(raws, p, if raws[p] == FAULT then 8 else 3) then OK else raws[p])
  }

  lemma {:induction false} StreaksAreTrailing(raws: seq<Alert>)
    ensures Run(raws).warnStreak == Trailing(raws, false)
    ensures Run(raws).okStreak == Trailing(raws, true)
    decreases |raws|
  {
    if raws != [] {
      StreaksAreTrailing(raws[..|raws| - 1]);
    }
  }

  /** Every history with a pair has a last one. */
  lemma {:induction false} LastPairExists(raws: seq<Alert>, q: int) returns (p: int)
    requires PairAt(raws, q)
    ensures LastPairAt(raws, p)
    decreases |raws| - q
  {
    p := q;
    if r :| q < r < |raws| && PairAt(raws, r) {
      p := LastPairExists(raws, r);
    }
  }

  /** The closed form names exactly one alert for every history. */
  lemma ClosedFormIsUnique(raws: seq<Alert>, a: Alert, b: Alert)
    requires Emits(raws, a) && Emits(raws, b)
    ensures a == b
  {
    if q :| PairAt(raws, q) {
      var p := LastPairExists(raws, q);
    }
  }

  lemma QuietHistory()
    ensures Emits([], OK)
  {
  }

  /** The emitted alert has the closed form, after every frame of every run. */
  lemma {:induction false} EmittedAlert(raws: seq<Alert>)
    ensures Emits(raws, Run(raws).sent)
    decreases |raws|
  {
    hide Emits;
    if raws == [] {
      QuietHistory();
    } else {
      var prefix, x := raws[..|raws| - 1], raws[|raws| - 1];
      EmittedAlert(prefix);
      StreaksAreTrailing(prefix);
      EmitsStep(prefix, x, Run(prefix).sent, Run(raws).sent);
      assert prefix + [x] == raws;
    }
  }

  lemma NewQuietRun(raws: seq<Alert>, x: Alert, n: nat)
    requires n >= 1
    ensures QuietRun(raws + [x], |raws|, n) <==> x == OK && n <= Trailing(raws, true) + 1
  {
    var all := raws + [x];
    var t := Trailing(raws, true);
    assert all[|raws|] == x;
    assert forall i :: 0 <= i < |raws| ==> all[i] == raws[i];
    if x == OK && t + 1 < n <= |raws| + 1 {
      var i := |raws| - t - 1;
      assert |raws| - n < i < |raws| && all[i] != OK;
    }
  }

  lemma ClearedAfterStep(raws: seq<Alert>, x: Alert, p: int, n: nat)
    requires 0 <= p < |raws| && n >= 1
    ensures ClearedAfter(raws + [x], p, n) <==>
            ClearedAfter(raws, p, n) || (p + n <= |raws| && QuietRun(raws + [x], |raws|, n))
  {
    var all := raws + [x];
    forall e | e < |raws| ensures QuietRun(all, e, n) <==> QuietRun(raws, e, n) {
      assert forall i :: 0 <= i < |raws| ==> all[i] == raws[i];
    }
  }

  lemma PairsStep(raws: seq<Alert>, x: Alert)
    ensures forall q :: q < |raws| ==> (PairAt(raws + [x], q) <==> PairAt(raws, q))
    ensures PairAt(raws + [x], |raws|) <==> x != OK && Trailing(raws, false) >= 1
  {
    var all := raws + [x];
    assert forall i :: 0 <= i < |raws| ==> all[i] == raws[i];
  }

  /** A frame that completes a non-OK pair makes that pair the last one. */
  lemma EmitsNewPair(raws: seq<Alert>, x: Alert)
    requires PairAt(raws + [x], |raws|)
    ensures Emits(raws + [x], x)
  {
    var all := raws + [x];
    forall p | LastPairAt(all, p) ensures p == |raws| && !ClearedAfter(all, p, ClearNeed(all[p])) {
      if p < |raws| {
        assert PairAt(all, |raws|);
      }
    }
  }

  /** A frame that completes no pair leaves the last pair where it was; it may end a clearing run. */
  lemma EmitsSamePair(raws: seq<Alert>, x: Alert, sent: Alert, final: Alert)
    requires Emits(raws, sent)
    requires !PairAt(raws + [x], |raws|)
    requires final == if x == OK && ClearNeed(sent) <= Trailing(raws, true) + 1 then OK else sent
    ensures Emits(raws + [x], final)
  {
    var all := raws + [x];
    PairsStep(raws, x);
    if forall q :: !PairAt(all, q) {
      forall q ensures !PairAt(raws, q) {
        assert q < |raws| ==> !PairAt(all, q);
      }
    }
    forall p | LastPairAt(all, p)
      ensures final == if ClearedAfter(all, p, ClearNeed(all[p])) then OK else all[p]
    {
      SamePair(raws, x, p);
    }
  }

  lemma SamePair(raws: seq<Alert>, x: Alert, p: int)
    requires LastPairAt(raws + [x], p) && !PairAt(raws + [x], |raws|)
    ensures LastPairAt(raws, p) && (raws + [x])[p] == raws[p]
    ensures ClearedAfter(raws + [x], p, ClearNeed(raws[p])) <==>
            ClearedAfter(raws, p, ClearNeed(raws[p])) || (x == OK && ClearNeed(raws[p]) <= Trailing(raws, true) + 1)
  {
    hide ClearedAfter;
    var all, n := raws + [x], ClearNeed(raws[p]);
    PairsStep(raws, x);
    assert LastPairAt(raws, p) by {
      forall q | p < q < |raws| ensures !PairAt(raws, q) {
        assert !PairAt(all, q);
      }
    }
    ClearedAfterStep(raws, x, p, n);
    NewQuietRun(raws, x, n);
    assert raws[p] != OK;
  }

  lemma EmitsStep(raws: seq<Alert>, x: Alert, sent: Alert, final: Alert)
    requires Emits(raws, sent)
    requires final == Persist(Hysteresis(Trailing(raws, false), Trailing(raws, true), sent), x).sent
    ensures Emits(raws + [x], final)
  {
    hide Emits;
    PairsStep(raws, x);
    if PairAt(raws + [x], |raws|) {
      EmitsNewPair(raws, x);
    } else {
      EmitsSamePair(raws, x, sent, final);
    }
  }

  // ----- What a change of the emitted alert tells about the raw levels

  /** The last n frames of a history are OK. */
  predicate EndsQuiet(raws: seq<Alert>, n: nat) {
    |raws| >= n && forall i :: |raws| - n <= i < |raws| ==> raws[i] == OK
  }

  lemma EndsQuietIs(raws: seq<Alert>, n: nat)
    ensures EndsQuiet(raws, n) <==> n <= Trailing(raws, true)
  {
    var t := Trailing(raws, true);
    if n > t && n <= |raws| {
      var i := |raws| - t - 1;
      assert |raws| - n <= i < |raws| && raws[i] != OK;
    }
  }

  /** A standing FAULT turns to OK exactly when the last eight raw levels are OK, a standing WARN exactly when the
      last three are. */
  lemma {:induction false} ClearsExactly(raws: seq<Alert>, x: Alert)
    requires Run(raws).sent != OK
    ensures Run(raws + [x]).sent == OK <==> EndsQuiet(raws + [x], if Run(raws).sent == FAULT then 8 else 3)
  {
    var all, n := raws + [x], if Run(raws).sent == FAULT then 8 else 3;
    assert all[..|raws|] == raws && all[|raws|] == x;
    StreaksAreTrailing(raws);
    StreaksAreTrailing(all);
    EndsQuietIs(all, n);
  }

  /** The emitted alert changes to a non-OK level exactly when the frame is non-OK at that level and the
      frame before it was non-OK: in both directions, so a FAULT can step down to WARN at once. */
  lemma {:induction false} LevelsNeedAPair(raws: seq<Alert>, x: Alert, level: Alert)
    requires level != OK && Run(raws).sent != level
    ensures Run(raws + [x]).sent == level <==>
            x == level && raws != [] && raws[|raws| - 1] != OK
  {
    var all := raws + [x];
    assert all[..|raws|] == raws && all[|raws|] == x;
    StreaksAreTrailing(raws);
  }
}
