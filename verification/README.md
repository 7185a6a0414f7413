# Proofs for the bearing-monitor pipeline

A satellite samples a microphone and a three-axis accelerometer, reduces them to spectra and scalars, and
publishes them in a sectioned binary frame. A gateway decodes the frames, scores them against baselines it
learns per machine, fuses the scores into a fault posterior, raises and clears alerts with hysteresis, and
estimates remaining useful life. This project models the computational core of both sides in Dafny and proves
what that core is for. `dafny verify dfyconfig.toml` checks all of it.

Each source file has a module of its own. Where the source updates an object, a buffer or static state in
place, the model is a class or a method over arrays, proved against a specification function; the lemmas then
say what that function means in terms of the inputs of a whole run.

| module | models |
|---|---|
| `RulEstimator`, `RulTrajectory`, `Matrix` | the two-state Kalman filter, its remaining-life result, and the batch problems it solves |
| `AdaptiveBaselines`, `Calibrations`, `Moments` | the Welford warm-up, the exponentially weighted baseline, and the calibration of the two-sided z-score |
| `BayesianFusion` | the naive-Bayes posterior and its attribution |
| `AlertEngine`, `KurtosisResponse` | raw alert level and hysteresis, and how the level answers to the kurtosis |
| `SatellitePipeline` | the per-frame pipeline: replay gate, calibration, fusion, alert, drift reset, learn only when OK |
| `MqttIngestion` | topics, payloads, per-node counters |
| `TelemetryWire`, `TelemetryFrame`, `SpectrumCodec`, `CodecAgreement` | the wire format, the gateway's codec, the firmware's encoder, and their agreement |
| `EndToEnd` | from the firmware's encoder through the broker to the pipeline |
| `WelchBuffer`, `SnapshotRing`, `AccelFifo` | the sliding history buffer, the pre-trigger ring, the FIFO drain |
| `Envelope`, `ScalarStats` | the biquad and envelope chain, the moment statistics |
| `Provisioning`, `FormParse` | the provisioning task against the captive portal, and the form parser |
| `RealMath`, `IntMath`, `Wrappers` | shared arithmetic and result types |

Floating-point values are exact reals; a float on the wire is an opaque 32-bit word. `exp`, `log` and `sqrt` are
function values, and `RealMath.IsExp` and `RealMath.IsSqrt` state the laws a proof uses. What the environment
decides (sensor bursts, driver results, the scores of foreign models, storage) is a parameter.

## Where the code and its description differ

* Raising the kurtosis can lower the raw level in two ways. A kurtosis in the WARN range is decided before the
  crest factors are looked at, so it turns a crest FAULT into a WARN (`gateway/pipeline/alerting.py:258` before
  `:260`); and the calibration z-score is two-sided (`:234`), so a kurtosis far below the calibration mean is a FAULT.
  `KurtosisResponse.UncalibratedLowersExactly` and `KurtosisResponse.CalibratedLowersExactly` give the exact condition
  without a calibration and at or above its mean; `KurtosisResponse.EveryLevelIsLoweredTo` says which levels of a
  calibrated satellite a rise can lower the level to; `KurtosisResponse.CrestFaultIsShadowed` and
  `KurtosisResponse.LowKurtosisIsFault` are inputs with the default thresholds.
* Learning is meant to be limited to healthy frames, but the first anomalous frame of an episode is still
  emitted as OK, because an alert needs two frames, and is learned. `SatellitePipeline.AnomalousFrameLearned` says
  exactly when over every run; `SatellitePipeline.FirstAnomalyIsLearned` is a first frame that the baselines absorb.
* The firmware truncates a section length to 16 bits where the gateway's encoder raises an error.
  `CodecAgreement.DecodableExactlyWhenLengthsFit` shows that a frame decodes exactly when every channel has at most
  16381 bins.
* The portal clears an old submission only after the access point has come up. When `esp_wifi_set_mode` or
  `esp_wifi_set_config` fails, a submission from an earlier portal session is taken, tested and saved.
  `Provisioning.SubmissionLeaks` is such a run; `Provisioning.TakenIsNewest` shows that a submission is current
  exactly when the portal is active at the take; `Provisioning.NoLeakWhenStartsSucceed` that none leaks when the
  two calls succeed.
* A portal start that fails with nothing pending is never retried: `Provisioning.StuckWithoutServer`.
* The excess (Fisher) kurtosis is defined about the mean
  (`docs/decisions/ADR-018-kurtosis-convention-reversed-to-excess.md`), but the code computes
  it about zero (`components/epm_dsp/scalar_stats.c:34-41`). The microphone task removes the mean first
  (`src/threads/mic_task.c:129-131`); the accelerometer task feeds samples with their gravity offset
  (`src/threads/imu_task.c:158-176`). `ScalarStats.KurtosisIsCentralExactly` gives the exact condition on a block's
  moments under which the two agree, in particular for every block with mean zero;
  `ScalarStats.OffsetChangesKurtosis` is a block on which they differ.
* A form value whose encoding does not fit its field is cut, possibly inside an escape, and the lookup still reports
  success. `FormParse.FieldRoundTrip` says exactly when the stored value is the submitted one;
  `FormParse.CutChangesValue` is a value that is changed.
* An escape of NUL ends the decoded string for every C caller: `FormParse.TextRoundTrip`.

## Model

| member | source | states |
|---|---|---|
| RulEstimator.InnovationAtLeastNoise | gateway/pipeline/rul_estimator.py:70-76 | S >= R > 0: the gain never divides by less than the observation noise |
| RulEstimator.SymmetrisingChangesNothing | gateway/pipeline/rul_estimator.py:77-81 | in exact arithmetic the gain form of P is symmetric already, so averaging it with its transpose changes nothing |
| RulEstimator.StepCovariance | gateway/pipeline/rul_estimator.py:70-105 | a step keeps P symmetric positive definite, so the guard on P[1,1] never acts, and det(P+) S = det(P-) R |
| RulEstimator.StepInformation | gateway/pipeline/rul_estimator.py:68-82 | for any process noise, an update adds H H^T / R to the information matrix and H z / R to the information vector |
| RulEstimator.RunIsBatch | gateway/pipeline/rul_estimator.py:68-82 | the case of no process noise: after any sequence of updates the state satisfies the batch normal equations and P inverts the batch information |
| RulEstimator.CostIsQuadratic | gateway/pipeline/rul_estimator.py:68-82 | the regularised least-squares cost differs from the batch objective by a constant |
| RulEstimator.RunIsLeastSquares | gateway/pipeline/rul_estimator.py:62-84 | the case of no process noise: the filter's estimate is the unique minimiser of the regularised least-squares cost over every observation of the run |
| RulEstimator.IngestAllIsRun | gateway/pipeline/rul_estimator.py:64-82 | a run of frames is the filter run over (hours since the first frame, ln K) pairs, counting every frame |
| RulEstimator.Fresh | gateway/pipeline/rul_estimator.py:49-60 | with a non-negative process noise and a positive observation noise the initial state is one every later step accepts |
| RulEstimator.FreshEstimatorIsLeastSquares | gateway/pipeline/rul_estimator.py:49-84 | a new estimator without process noise fits ln K = ln K0 + lambda t with its constructor's prior, strictly better than any other line |
| RulTrajectory.PredictSquare | gateway/pipeline/rul_estimator.py:70-70 | completing the square over the state before a frame: moving from P to P + Q is minimising over it |
| RulTrajectory.FrameCost | gateway/pipeline/rul_estimator.py:68-82 | whatever the states before and after a frame, their cost is a floor plus two squares, which vanish at the filter's state and at the best state before it |
| RulTrajectory.CostAroundFilter | gateway/pipeline/rul_estimator.py:62-84 | the cost of every trajectory of hidden states is completed into squares around the filter's final state |
| RulTrajectory.DepartureIsPositive | gateway/pipeline/rul_estimator.py:62-84 | the squares vanish exactly on the smoothed trajectory |
| RulTrajectory.RunEndsBestTrajectory | gateway/pipeline/rul_estimator.py:62-84 | with positive definite process noise the filter's state is the last state of the unique trajectory that minimises prior penalty, changes between frames and misfits |
| RulTrajectory.FreshEstimatorEndsBestTrajectory | gateway/registry/satellite_state.py:151-152 | so it is for a new estimator with any positive process noise, such as the one the gateway builds, after any frames |
| RulEstimator.RulIsOrdered | gateway/pipeline/rul_estimator.py:86-123 | infinite exactly before 30 updates or without growth; otherwise 0 <= low <= point <= high, confidence in (0, 1], and the point estimate is when the fitted line reaches ln K_fail |
| RulEstimator.RulInterval | gateway/pipeline/rul_estimator.py:100-123 | the half width w of the interval satisfies w^2 lambda^4 = 1.96^2 (ln K_fail - x0 - x1 now)^2 P[1,1], the lower end is cut at 0, the confidence is a tenth of lambda over the square root of P[1,1] and at most 1; lambda and K0 are reported from the state |
| RulEstimator.ExponentialRul.constructor | gateway/pipeline/rul_estimator.py:49-60 | builds the initial state from any parameters; sensible noises make it valid |
| RulEstimator.ExponentialRul.Update | gateway/pipeline/rul_estimator.py:62-84 | the object's update is the specified step, keeps P positive definite and satisfies the information-form step |
| RulEstimator.CheckpointIsTransparent | gateway/pipeline/rul_estimator.py:127-147 | loading a snapshot taken anywhere in a run into any estimator gives the same state, hence the same states over every later run |
| RulEstimator.ExponentialRul.LoadStateDict | gateway/pipeline/rul_estimator.py:139-147 | installs any snapshot, with defaults for absent keys; one that a step can start from makes the estimator valid |
| AdaptiveBaselines.WelfordStep | gateway/pipeline/adaptive_baseline.py:79-84 | Welford's recurrences hold of the true mean and the true sum of squared deviations |
| AdaptiveBaselines.WarmupIsBatch | gateway/pipeline/adaptive_baseline.py:79-88 | during warm-up the fields are the true mean and squared deviations, and its last sample seeds mean and sample variance |
| AdaptiveBaselines.TrackingStep | gateway/pipeline/adaptive_baseline.py:89-94 | the update maps the exponentially weighted mean and the weighted variance about it to themselves |
| AdaptiveBaselines.TrackingMean | gateway/pipeline/adaptive_baseline.py:89-91 | after warm-up the mean is the exponentially weighted mean of the samples since the seed |
| AdaptiveBaselines.TrackingVariance | gateway/pipeline/adaptive_baseline.py:89-94 | the variance equals the weighted variance at every sample exactly when the floor never acts, and is never below it |
| AdaptiveBaselines.BaselineIsBatch | gateway/pipeline/adaptive_baseline.py:66-94 | everything the fields hold after a reset and any healthy samples, as batch formulas |
| AdaptiveBaselines.MeanWithinSamples | gateway/pipeline/adaptive_baseline.py:52-54 | the reported mean stays within the range of the healthy samples (and of the initial 0 when there is no warm-up) |
| AdaptiveBaselines.MeanBoundedExactly | gateway/pipeline/adaptive_baseline.py:89-91 | it does so for all samples exactly when alpha lies in [0, 1] |
| AdaptiveBaselines.VarianceAboveFloor | gateway/pipeline/adaptive_baseline.py:88-94 | the variance never falls below 1e-6 |
| AdaptiveBaselines.SeedIsSampleVariance | gateway/pipeline/adaptive_baseline.py:85-88 | n - 1 times the seed variance is the sum of squared deviations, unless the floor raised it |
| AdaptiveBaselines.WarmupVariance | gateway/pipeline/adaptive_baseline.py:56-62 | during warm-up the reported variance is the sample variance, and the floor before the second sample |
| AdaptiveBaselines.ScoreIsStandardised | gateway/pipeline/adaptive_baseline.py:98-102 | after warm-up the z-score has the sign of the deviation and its square times the variance is the squared deviation; below a standard deviation of 1e-6 that is the divisor |
| Calibrations.SamplesCalibrate | gateway/registry/baselines.py:114-117 | n times each mean is the sum of its feature, n times the square of each deviation less 1e-6 the feature's squared deviation |
| Calibrations.ZIsLargerDeviation | gateway/pipeline/alerting.py:228-235 | the z-score is the larger absolute deviation of the two features, each in its own standard deviations |
| AdaptiveBaselines.OnlyHealthySamplesCount | gateway/pipeline/adaptive_baseline.py:74-75 | unhealthy samples leave no trace over any run |
| AdaptiveBaselines.CheckpointIsTransparent | gateway/pipeline/adaptive_baseline.py:123-145 | saving and loading at any point of a run leaves every later state unchanged |
| AdaptiveBaselines.AdaptiveBaseline.constructor | gateway/pipeline/adaptive_baseline.py:37-48 | builds the cleared state |
| AdaptiveBaselines.AdaptiveBaseline.Update | gateway/pipeline/adaptive_baseline.py:66-94 | the object's update is the specified step; an unhealthy sample changes nothing |
| AdaptiveBaselines.AdaptiveBaseline.ZScore | gateway/pipeline/adaptive_baseline.py:98-102 | zero before warm-up ends, then the deviation in standard deviations |
| AdaptiveBaselines.AdaptiveBaseline.Threshold | gateway/pipeline/adaptive_baseline.py:104-110 | after warm-up the threshold is the value whose z-score is k |
| AdaptiveBaselines.AdaptiveBaseline.Reset | gateway/pipeline/adaptive_baseline.py:114-121 | clears the learned fields and keeps the parameters |
| AdaptiveBaselines.AdaptiveBaseline.StateDict | gateway/pipeline/adaptive_baseline.py:123-134 | the snapshot holds every field |
| AdaptiveBaselines.AdaptiveBaseline.LoadStateDict | gateway/pipeline/adaptive_baseline.py:136-145 | restoring installs the snapshot, with defaults for absent keys |
| BayesianFusion.Create | gateway/pipeline/bayesian_fusion.py:61-69 | accepts exactly a prior in (0, 1) and a positive temperature |
| BayesianFusion.LikelihoodOdds | gateway/pipeline/bayesian_fusion.py:71-73 | a channel's likelihood lies in (0, 1) and its odds are exp of its contribution |
| BayesianFusion.PosteriorOdds | gateway/pipeline/bayesian_fusion.py:89-99 | the posterior lies in (0, 1) and its odds are the prior odds times exp of the summed evidence |
| BayesianFusion.Fuse | gateway/pipeline/bayesian_fusion.py:75-99 | the loop of products computes that posterior, dropping NaN channels |
| BayesianFusion.PosteriorIncreasing | gateway/pipeline/bayesian_fusion.py:89-99 | the posterior is strictly increasing in the evidence |
| BayesianFusion.RaisingAChannel | gateway/pipeline/bayesian_fusion.py:71-99 | raising any one z-score strictly raises the posterior |
| BayesianFusion.FuseInTwoParts | gateway/pipeline/bayesian_fusion.py:75-99 | fusing a list in two parts, the first posterior as the new prior, gives the posterior of the whole |
| BayesianFusion.OrderDoesNotMatter | gateway/pipeline/bayesian_fusion.py:82-93 | reordering the channels leaves the evidence unchanged |
| BayesianFusion.Attribute | gateway/pipeline/bayesian_fusion.py:101-115 | the top k contributions in descending order |
| BayesianFusion.SortIsStable | gateway/pipeline/bayesian_fusion.py:114-114 | channels that contribute the same keep their order |
| BayesianFusion.CutIsSlice | gateway/pipeline/bayesian_fusion.py:115-115 | a position survives exactly when the slice keeps it, also for a negative or too large top_k |
| BayesianFusion.ReportsCarryEvidence | gateway/pipeline/bayesian_fusion.py:108-113 | the contributions reported for all channels add up to the evidence |
| BayesianFusion.AttributionExplainsPosterior | gateway/pipeline/bayesian_fusion.py:101-115 | when top_k covers all channels, the posterior odds are the prior odds times exp of the reported contributions |
| WelchBuffer.HopIsRoundedShare | components/epm_dsp/spectrum.c:5-11 | the hop is the non-overlapping share of the window rounded up, and one from 100 percent on |
| WelchBuffer.HopCoversStream | components/epm_dsp/spectrum.c:5-11 | the hop skips no samples exactly when the truncated overlap is not negative, in particular for every overlap >= 0 |
| WelchBuffer.GroupedFrames | src/threads/dsp_task.c:240-262 | grouping assigns windows j A to (j+1) A - 1, and only those, to frame j |
| WelchBuffer.DspTask.constructor | src/threads/dsp_task.c:139-143 | an empty buffer and accumulator |
| WelchBuffer.DspTask.AccumulatePower | components/epm_dsp/spectrum.c:13-21 | adds one window's power to every bin, so the accumulator stays the total of the pending windows |
| WelchBuffer.PowerIs | components/epm_dsp/spectrum.c:17-19 | the power is the squared magnitude of the transform times the squared normalisation |
| WelchBuffer.DspTask.PostFrame | src/threads/dsp_task.c:258-277 | posts the average of the pending windows, overwrites the queue and clears the accumulator |
| WelchBuffer.DspTask.Drain | src/threads/dsp_task.c:197-285 | transforms every window the buffer holds at consecutive multiples of the hop, leaving less than one window |
| WelchBuffer.DspTask.Append | src/threads/dsp_task.c:183-185 | a block fits behind the leftover in the 2N buffer |
| WelchBuffer.DspTask.Compact | src/threads/dsp_task.c:287-297 | moves the leftover to the front of the buffer |
| WelchBuffer.DspTask.Receive | src/threads/dsp_task.c:183-297 | over any number of blocks the windows transformed are stream[i hop .. i hop + N) with none skipped or repeated, and frame j averages windows j A to (j+1) A - 1 |
| SnapshotRing.Ring.constructor | components/epm_drivers/mic_inmp441_i2s.c:80-90 | an empty ring, or none without memory |
| SnapshotRing.Ring.Push | components/epm_drivers/mic_inmp441_i2s.c:92-109 | the ring represents the newest min(total, capacity) samples of everything pushed |
| SnapshotRing.Truncated | components/epm_drivers/mic_inmp441_i2s.c:99-99 | a sample is the raw value divided by 65536, rounded down also when negative |
| SnapshotRing.Ring.Store | components/epm_drivers/mic_inmp441_i2s.c:97-100 | the write loop puts sample i of the stream in slot i mod capacity |
| SnapshotRing.Ring.Count | components/epm_drivers/mic_inmp441_i2s.c:111-117 | the number of samples held |
| SnapshotRing.Ring.ReadChunk | components/epm_drivers/mic_inmp441_i2s.c:119-151 | returns the requested chunk of the contents, oldest first, and writes nothing behind it |
| SnapshotRing.Ring.CopyOut | components/epm_drivers/mic_inmp441_i2s.c:140-150 | the wraparound segment loop terminates in bounds and copies consecutive samples of the stream |
| SnapshotRing.SlotsDiffer | components/epm_drivers/mic_inmp441_i2s.c:99-99 | samples less than a capacity apart never share a slot |
| SnapshotRing.ChunksConcatenate | components/epm_drivers/mic_inmp441_i2s.c:119-151 | without pushes between them, chunk reads at successive returned offsets concatenate to the contents; even sizes read exactly what was asked for until the end |
| SnapshotRing.ReadsSkipExactlyDisplaced | components/epm_drivers/mic_inmp441_i2s.c:92-151 | over every interleaving of pushes and reads each read is a stretch of the stream, and consecutive reads skip exactly the samples displaced between them |
| SnapshotRing.EmptyReads | components/epm_drivers/mic_inmp441_i2s.c:121-132 | a read is empty exactly at the end or below one sample |
| AccelFifo.Drain | components/epm_drivers/accel_kx134_spi.c:388-429 | the poll loop succeeds exactly when whole frames for every wanted sample have arrived |
| AccelFifo.Int16 | components/epm_drivers/accel_kx134_spi.c:416-418 | little-endian two's complement |
| AccelFifo.LevelCounted | components/epm_drivers/accel_kx134_spi.c:398-408 | the level is the ten low bits of the two registers; a poll delivers all its whole frames up to 86 and up to what is missing |
| AccelFifo.Driver.DecodeBurst | components/epm_drivers/accel_kx134_spi.c:414-428 | decodes a burst behind the staged samples, all three axes from the same frame |
| AccelFifo.Driver.FillEpoch | components/epm_drivers/accel_kx134_spi.c:376-453 | stages X, Y and Z of the i-th frame of the concatenated bursts, never past the wanted count; too large a request is rejected |
| AccelFifo.Driver.ReadBlock | components/epm_drivers/accel_kx134_spi.c:455-480 | X drains, Y and Z are served from the stage also after a failed X, and the counters record the outcome |
| AccelFifo.Driver.ReadEpoch | src/threads/imu_task.c:286-304 | the three calls of an epoch return aligned series; after a successful X all have the wanted length |
| AccelFifo.DrainStep | components/epm_drivers/accel_kx134_spi.c:388-408 | one poll of the loop: timeout, unreadable status, failed burst, empty level or a burst |
| TelemetryWire.U16RoundTrip | components/epm_codec/spectrum_codec.c:14-18 | a packed 16-bit word reads back anywhere in a payload |
| TelemetryWire.F32RoundTrip | components/epm_codec/spectrum_codec.c:20-24 | a packed float reads back bit for bit |
| TelemetryWire.SectionRoundTrip | gateway/common/telemetry_frame.py:116-166 | the decoder's header arithmetic recovers an encoded section anywhere in a payload |
| TelemetryFrame.EncodeSection | gateway/common/telemetry_frame.py:116-119 | fails exactly for a body longer than 65535 bytes; otherwise the reader gets the section back |
| TelemetryFrame.PayloadDecodes | gateway/common/telemetry_frame.py:142-177 | the decoder merges a payload's sections in order and ignores what follows them |
| TelemetryFrame.DecodesExactly | gateway/common/telemetry_frame.py:142-177 | a payload decodes to a frame if and only if it is a count, that many well-formed sections that merge to the frame, and any tail |
| TelemetryFrame.DecodeScalarSet | gateway/common/telemetry_frame.py:205-216 | the loop stores the scalars in wire order, the last of equal ids winning |
| TelemetryFrame.MalformedExactly | gateway/common/telemetry_frame.py:182-227 | a section is malformed exactly when its body is shorter than its own count requires |
| TelemetryFrame.DecodeFrame | gateway/common/telemetry_frame.py:142-177 | total: every payload gives a frame or Malformed, as the section-by-section meaning says |
| TelemetryFrame.FrameRoundTrip | gateway/common/telemetry_frame.py:122-177 | decoding an encoded frame merges its sections left to right |
| TelemetryFrame.MergeAllOverlays | gateway/common/telemetry_frame.py:153-177 | what sections add to a frame does not depend on the frame: it is laid over it |
| TelemetryFrame.DecodeComposes | gateway/common/telemetry_frame.py:142-177 | a payload of two section lists and any tail decodes exactly when both lists' payloads do, to the second frame laid over the first |
| TelemetryFrame.UnknownKindsAreSkipped | gateway/common/telemetry_frame.py:174-175 | inserting a section of unknown kind anywhere into a payload changes only the count of unknown sections |
| SpectrumCodec.TotalSize | components/epm_codec/spectrum_codec.c:36-43 | the size loop computes the frame's length |
| SpectrumCodec.BuildFrame | components/epm_codec/spectrum_codec.c:26-89 | writes exactly the frame and returns its precomputed length, or returns 0 and writes nothing |
| SpectrumCodec.SmallFrame | components/epm_codec/spectrum_codec.c:26-89 | a frame of one channel and one scalar, byte by byte |
| SpectrumCodec.WriteFrame | components/epm_codec/spectrum_codec.c:48-88 | the appenders write the frame's bytes in order and nothing behind them |
| SpectrumCodec.PutChannel | components/epm_codec/spectrum_codec.c:52-70 | appends one spectrum section, its length field truncated to 16 bits |
| SpectrumCodec.PutScalars | components/epm_codec/spectrum_codec.c:72-86 | appends the scalar section: count, ids, values |
| CodecAgreement.SpectrumBodyRoundTrip | gateway/common/telemetry_frame.py:98-202 | a spectrum body, with anything behind it, decodes to what was encoded; an unknown channel only counts, an empty one has no bins entry |
| CodecAgreement.ScalarBodyRoundTrip | gateway/common/telemetry_frame.py:103-216 | a scalar body, with anything behind it, decodes to the scalars encoded |
| CodecAgreement.TimeSeriesBodyRoundTrip | gateway/common/telemetry_frame.py:111-228 | a time-series body, with anything behind it, decodes to the series encoded |
| CodecAgreement.AcceptsExactly | gateway/common/telemetry_frame.py:182-227 | a section is accepted exactly when its body begins with one that the encoder of its kind writes |
| CodecAgreement.BuilderMatchesEncoder | components/epm_codec/spectrum_codec.c:26-89 | when the lengths fit, the firmware's bytes are the gateway encoder's over the same sections |
| CodecAgreement.DecodedExactly | components/epm_codec/spectrum_codec.c:26-89 | decoding a firmware frame with distinct known channels and scalar ids returns exactly the channels and scalars put in |
| CodecAgreement.DecodableExactlyWhenLengthsFit | components/epm_codec/spectrum_codec.c:54-54 | a firmware frame decodes if and only if every channel has at most 16381 bins |
| CodecAgreement.AscendingScalarsMatch | gateway/common/telemetry_frame.py:103-108 | with ascending ids the gateway's sorted scalar body equals the firmware's |
| CodecAgreement.BytesMatchGateway | gateway/common/telemetry_frame.py:98-126 | with ascending scalar ids the whole frame is byte for byte the gateway encoder's |
| AlertEngine.ComputeAlert | gateway/pipeline/alerting.py:254-334 | the branches compute the specified raw level and hysteresis step |
| KurtosisResponse.ThresholdIsStepped | gateway/pipeline/alerting.py:230-263 | at or above the calibration mean the threshold level is a step function of the kurtosis, whose steps follow from its thresholds, its baseline and the calibration |
| KurtosisResponse.PosteriorRises | gateway/pipeline/alerting.py:273-300 | the fused posterior rises strictly with the kurtosis |
| KurtosisResponse.LowersAboveMean | gateway/pipeline/alerting.py:230-316 | at or above the calibration mean a rise lowers the raw level exactly when it enters the WARN range that shadows a crest FAULT and the posterior there is below FAULT |
| KurtosisResponse.UncalibratedLowersExactly | gateway/pipeline/alerting.py:255-263 | for an uncalibrated satellite some rise of the kurtosis lowers the raw level if and only if a crest FAULT is shadowed |
| KurtosisResponse.CalibratedLowersExactly | gateway/pipeline/alerting.py:230-316 | for a calibrated one some rise from the mean or above does if and only if, besides, the WARN range starts above the mean and the posterior there is below FAULT |
| KurtosisResponse.EveryLevelIsLoweredTo | gateway/pipeline/alerting.py:230-257 | for a calibrated satellite with high-band energy every level but FAULT is reached by a rise that lowers the level, and no FAULT is |
| KurtosisResponse.CrestFaultIsShadowed | gateway/pipeline/alerting.py:258-261 | an input with a crest factor of 11: kurtosis 5 is FAULT, 6 is WARN |
| KurtosisResponse.LowKurtosisIsFault | gateway/pipeline/alerting.py:232-257 | an input calibrated at 3: kurtosis 2 is FAULT, 3 is OK |
| AlertEngine.RaisesExactlyWhen | gateway/pipeline/alerting.py:254-316 | with ordered thresholds the raw level is above OK exactly when some evidence reaches WARN and the high band is present, and FAULT exactly when the evidence that decides reaches FAULT |
| AlertEngine.StreaksAreTrailing | gateway/pipeline/alerting.py:319-324 | the streak counters are the lengths of the runs that end the history |
| AlertEngine.EmittedAlert | gateway/pipeline/alerting.py:318-334 | over every raw history the emitted alert is OK without two adjacent non-OK frames, else the level ending the last such pair unless a long enough OK run followed it |
| AlertEngine.ClosedFormIsUnique | gateway/pipeline/alerting.py:318-334 | the closed form determines the alert |
| AlertEngine.ClearsExactly | gateway/pipeline/alerting.py:330-332 | a standing FAULT turns OK exactly when the last 8 raw levels are OK, a standing WARN exactly when the last 3 are |
| AlertEngine.LevelsNeedAPair | gateway/pipeline/alerting.py:326-334 | the alert changes to a non-OK level, up or down, exactly when a second adjacent non-OK frame has that level |
| SatellitePipeline.LastIdIsMaximum | mic_tools/recv_verify.py:419-426 | the last accepted id is the maximum id received |
| SatellitePipeline.GateAcceptsRunningMaxima | mic_tools/recv_verify.py:419-426 | the replay gate accepts exactly the strict running maxima of the frame ids |
| SatellitePipeline.BaselinesLearnOkFramesSinceReset | mic_tools/recv_verify.py:449-481 | over every run each baseline is the fold over exactly the frames whose emitted alert was OK since the last drift reset |
| SatellitePipeline.MeanWithinOkFrames | mic_tools/recv_verify.py:473-481 | a baseline's mean stays within the range of the OK frames since the last reset, whatever the WARN and FAULT frames held |
| SatellitePipeline.ResetOrNone | mic_tools/recv_verify.py:454-458 | every history has a last reset or none, so the fold covers every run |
| SatellitePipeline.BaselinesAdvanceTogether | mic_tools/recv_verify.py:476-481 | the four baselines always have equal update counts |
| SatellitePipeline.OneReadinessCheckIsEnough | gateway/pipeline/alerting.py:243-252 | checking the kurtosis baseline's readiness is enough: the adaptive z-score is zero or the largest of all four |
| SatellitePipeline.AlertsFollowAcceptedFrames | mic_tools/recv_verify.py:443-447 | the emitted alert of a run has the closed form over the raw levels of its accepted frames |
| SatellitePipeline.HysteresisRemembers | gateway/pipeline/alerting.py:318-334 | the hysteresis state tells the alert and whether the raw level was OK of the last accepted frame |
| SatellitePipeline.AnomalousFrameLearned | mic_tools/recv_verify.py:473-481 | over every run an anomalous frame is emitted as OK exactly when no alert stood and the frame before was not anomalous; then all four baselines learn it, otherwise none changes |
| SatellitePipeline.FirstAnomalyIsLearned | mic_tools/recv_verify.py:473-481 | a first frame with kurtosis 7: raw WARN, emitted OK, and the kurtosis mean becomes 7 |
| SatellitePipeline.BufferHoldsNewest | gateway/registry/satellite_state.py:82-84 | over every run the buffer holds the features of the newest 500 frames learned |
| SatellitePipeline.ResetsExactly | mic_tools/recv_verify.py:449-459 | an accepted frame resets exactly when it is OK, reports a drift and at least 50 frames were learned before it |
| SatellitePipeline.CalibrationFollows | mic_tools/recv_verify.py:395-490 | over every run: 29 accepted frames leave no calibration, the thirtieth is scored with and leaves the mean and deviation of the thirty, a reset leaves those of the newest 500 learned, ready baselines leave theirs, any other frame changes nothing |
| SatellitePipeline.ReplayChangesNothing | mic_tools/recv_verify.py:421-425 | a replayed frame leaves the state unchanged |
| SatellitePipeline.Satellite.constructor | gateway/registry/satellite_state.py:97-101 | four cleared baselines and no alert |
| SatellitePipeline.Satellite.FuseScores | gateway/pipeline/alerting.py:272-300 | once calibrated, the posterior of the signed z-scores and the foreign channels |
| SatellitePipeline.Satellite.ScoreFrame | gateway/pipeline/alerting.py:228-300 | the two-sided, the adaptive and the fused evidence of a frame |
| SatellitePipeline.Satellite.LearnFeatures | mic_tools/recv_verify.py:449-459 | an OK frame's features are buffered; a drift recomputes the calibration and resets the baselines |
| SatellitePipeline.Satellite.ResetBaselines | gateway/registry/baselines.py:149-152 | resets all four baselines |
| SatellitePipeline.Satellite.UpdateBaselines | mic_tools/recv_verify.py:477-481 | feeds one frame to all four baselines |
| SatellitePipeline.Satellite.ProcessFrame | mic_tools/recv_verify.py:395-490 | the object's frame processing is the specified step, calibration and fusion included; a replay reports none |
| MqttIngestion.NodeIdIsSecondField | gateway/ingestion/mqtt_subscriber.py:85-87 | the node id is the text between the first slash and the next, if any |
| MqttIngestion.TopicNamesNode | gateway/ingestion/mqtt_subscriber.py:85-87 | the topic a node publishes on gives back its id |
| MqttIngestion.Largest | gateway/ingestion/mqtt_subscriber.py:118-120 | the worst axis' crest factor |
| MqttIngestion.FramesOf | gateway/ingestion/mqtt_subscriber.py:241-243 | a node's own decodable messages are numbered 1, 2, 3, ... |
| MqttIngestion.NodesAreIndependent | gateway/ingestion/mqtt_subscriber.py:214-252 | over every interleaving of nodes and malformed messages a node's state is the pipeline run over its own decodable messages alone |
| MqttIngestion.NoFrameIsRejected | gateway/ingestion/mqtt_subscriber.py:241-249 | no such message is rejected as a replay |
| MqttIngestion.EveryFrameIsProcessed | gateway/ingestion/mqtt_subscriber.py:241-252 | each of them appears in the node's history, in order |
| MqttIngestion.MqttIngestor.constructor | gateway/ingestion/mqtt_subscriber.py:182-191 | starts without nodes |
| MqttIngestion.MqttIngestor.OnMessage | gateway/ingestion/mqtt_subscriber.py:214-252 | a malformed topic or payload changes nothing; a readable message changes only its own node |
| EndToEnd.ScalarArrives | gateway/ingestion/mqtt_subscriber.py:111-115 | the pipeline reads under a scalar's name the value sent under its id, zero when none was sent |
| EndToEnd.MicSpectrumArrives | gateway/ingestion/mqtt_subscriber.py:95-95 | the spectrum the pipeline reads is the one sent for the microphone channel |
| EndToEnd.WorstAxisArrives | gateway/ingestion/mqtt_subscriber.py:117-120 | the crest factor is the largest of the axes sent, zero when none is |
| EndToEnd.StatisticsArrive | components/epm_codec/scalar_map.c:3-12 | of the 24 statistics a satellite sends, the pipeline sees the microphone's rms value, kurtosis and crest factor and the largest of the axes' crest factors |
| EndToEnd.PublishedFrameIsProcessed | gateway/ingestion/mqtt_subscriber.py:214-252 | a frame the firmware encodes and publishes is processed as its node's next frame with exactly the statistics and spectrum encoded and what was reported with it, whatever other nodes sent before |
| EndToEnd.SatelliteFrameIsProcessed | src/threads/net_task.c:123-196 | every frame of the seven spectra and 24 statistics a satellite publishes is encodable and is processed as its next one, with its microphone's statistics and spectrum and its worst axis |
| Provisioning.PortalClosedWhileConnected | src/threads/wifi_provision_task.c:54-134 | in every interleaving the portal is inactive and its server down in CONNECTED and RECOVERING |
| Provisioning.SavedOnlyAfterTest | src/threads/wifi_provision_task.c:98-117 | a credential is saved only right after it was taken, applied and followed by a successful wait |
| Provisioning.SavedWasSubmitted | src/threads/wifi_provision_task.c:98-117 | every saved credential was submitted before |
| Provisioning.TakenIsNewest | components/epm_drivers/http_captive.c:229-244 | a taken credential is the newest submission, not taken before, and of the current session exactly when the portal is active |
| Provisioning.NoLeakWhenStartsSucceed | components/epm_drivers/provisioning.c:99-108 | when the access-point calls succeed, no submission leaks into a later session |
| Provisioning.SubmissionLeaks | components/epm_drivers/provisioning.c:99-108 | a concrete run in which an old submission is taken after a failed start |
| Provisioning.StuckWithoutServer | src/threads/wifi_provision_task.c:94-105 | the provisioning task polls for ever exactly when the server is down and nothing is pending |
| Provisioning.PhasesFollowDiagram | src/threads/wifi_provision_task.c:40-134 | in every interleaving the task is in, or on its way to, the phase that the newest answer of a wait, a poll or a take leads to in the state diagram |
| Provisioning.PhaseIsReached | src/threads/wifi_provision_task.c:53-134 | it gets there within six of its own steps, whatever is posted meanwhile |
| Provisioning.FirstStartCanFail | components/epm_drivers/provisioning.c:99-103 | a concrete run into that state |
| Provisioning.StartIsItsSteps | components/epm_drivers/provisioning.c:62-128 | an uninterrupted start is the provisioning task's atomic steps in order |
| Provisioning.CaptivePortal.HandleSubmit | components/epm_drivers/http_captive.c:103-107 | the critical section replaces the pending submission |
| Provisioning.CaptivePortal.HttpStart | components/epm_drivers/http_captive.c:175-219 | creates the mutex once, clears the pending submission, starts the server |
| Provisioning.CaptivePortal.Start | components/epm_drivers/provisioning.c:62-128 | nothing when active or when a call fails; otherwise active, with the server up if it could be started |
| Provisioning.CaptivePortal.Stop | components/epm_drivers/provisioning.c:130-145 | server down and inactive; the pending submission stays |
| Provisioning.CaptivePortal.TakeSubmission | components/epm_drivers/http_captive.c:229-244 | hands out the pending submission at most once |
| Provisioning.CaptivePortal.ReportResult | components/epm_drivers/http_captive.c:246-255 | sets the status page's result |
| Envelope.BiquadIsDifferenceEquation | components/epm_dsp/envelope.c:52-58 | a signal solves y[n] = b0 x[n] + b1 x[n-1] + b2 x[n-2] - a1 y[n-1] - a2 y[n-2] if and only if it is the two-register filter's output |
| Envelope.RegistersHoldHistory | components/epm_dsp/envelope.c:55-56 | the registers hold the known part of the next two outputs |
| Envelope.ChainIsCascade | components/epm_dsp/envelope.c:83-94 | running the filters sample by sample equals running each over the whole signal |
| Envelope.DecimatedAt | components/epm_dsp/envelope.c:91-93 | output k is filtered sample (k+1) m - 1, and there are n / m of them |
| Envelope.BlocksJoin | components/epm_dsp/envelope.c:75-97 | processing a then b with carried registers gives the output of a followed by b, for lengths of a that are multiples of m |
| Envelope.EnvelopeScales | components/epm_dsp/envelope.c:83-94 | scaling input and registers by g scales the envelope by the absolute value of g |
| Envelope.OutputScalesFromReset | components/epm_dsp/envelope.c:83-94 | from reset, scaling the input by g scales the decimated output by the absolute value of g |
| Envelope.Biquad.constructor | components/epm_dsp/envelope.c:6-16 | normalised coefficients and cleared registers |
| Envelope.Biquad.Process | components/epm_dsp/envelope.c:52-58 | one sample through the registers |
| Envelope.Biquad.Reset | components/epm_dsp/envelope.c:60-64 | clears the registers |
| Envelope.EnvelopeFilter.Sample | components/epm_dsp/envelope.c:85-89 | one sample through the chain |
| Envelope.EnvelopeFilter.Process | components/epm_dsp/envelope.c:75-97 | rejects ill-fitting arguments with nothing changed; otherwise writes exactly the decimated envelope, also in place |
| Envelope.EnvelopeFilter.Filter | components/epm_dsp/envelope.c:83-94 | the loop over a block |
| ScalarStats.SumsGiveCentralMoments | components/epm_dsp/scalar_stats.c:43-60 | the formulas on sums equal the mean squared and mean cubed deviation from the mean |
| ScalarStats.KurtosisBounds | components/epm_dsp/scalar_stats.c:34-41 | above the variance threshold the excess kurtosis of n samples lies in [-2, n - 3]; below it is the fallback |
| ScalarStats.MomentsAboutZero | components/epm_dsp/scalar_stats.c:34-38 | the second and fourth moment about zero in terms of the mean and the central moments |
| ScalarStats.KurtosisIsCentralExactly | components/epm_dsp/scalar_stats.c:34-41 | the code's excess kurtosis is the one about the mean exactly when the block's moments agree, in particular when its mean is zero |
| ScalarStats.OffsetChangesKurtosis | components/epm_dsp/scalar_stats.c:34-41 | on the block 0, 2 the code gives -1 where the kurtosis about the mean is -2 |
| ScalarStats.CrestBounds | components/epm_dsp/scalar_stats.c:5-32 | above the rms threshold the squared crest factor lies in [1, n]; below it is zero |
| ScalarStats.CrestIsPeakOverRms | components/epm_dsp/scalar_stats.c:29-32 | the crest factor times the rms value is the peak, and it is zero at an rms value of at most 1e-8 |
| ScalarStats.StatsDescribe | src/threads/imu_task.c:171-180 | rms, std and skewness in terms of the samples |
| ScalarStats.ComputeAxisStats | src/threads/imu_task.c:149-181 | the single pass delivers the mean, rms, peaks, moments and clip flag of the block |
| ScalarStats.FindPeakAbs | components/epm_dsp/scalar_stats.c:10-18 | the largest absolute value, zero for no samples |
| ScalarStats.FindPeakSigned | components/epm_dsp/scalar_stats.c:20-27 | a sample no other exceeds |
| ScalarStats.PeakAbs | components/epm_dsp/scalar_stats.c:10-18 | bounds every absolute value and is one of them |
| FormParse.DecodeEncode | components/epm_drivers/http_form_parse.c:7-24 | decoding what the form serializer encodes gives back every byte string |
| FormParse.CaseDoesNotMatter | components/epm_drivers/http_form_parse.c:15-18 | an escape means the same with lower-case digits |
| FormParse.HexDigitsAre | components/epm_drivers/http_form_parse.c:15-17 | the hexadecimal digits are the 22 characters, each worth its position |
| FormParse.EncodeInjective | components/epm_drivers/http_form_parse.c:7-24 | no two strings share an encoding |
| FormParse.PieceInBuffer | components/epm_drivers/http_form_parse.c:12-20 | the terminator ends a cut-off escape, so the branches taken on the buffer are those of its text |
| FormParse.DecodingStep | components/epm_drivers/http_form_parse.c:11-22 | the write position never passes the read position and the unread bytes stay as they were |
| FormParse.UrlDecode | components/epm_drivers/http_form_parse.c:7-24 | in-place decoding equals the pure decoder and leaves the bytes behind the new terminator alone |
| FormParse.TextRoundTrip | components/epm_drivers/http_form_parse.c:7-24 | as a C string the encoded text comes back whole exactly when it holds no NUL |
| FormParse.GetValue | components/epm_drivers/http_form_parse.c:26-57 | stores the decoded, possibly cut value of the first pair with the key; otherwise reports false and writes nothing |
| FormParse.CutDecodes | components/epm_drivers/http_form_parse.c:40-46 | a cut encoding decodes to the value exactly when nothing is cut, or when the cut leaves the characters of a final percent sign, or of one before a final 2 |
| FormParse.CutChangesValue | components/epm_drivers/http_form_parse.c:40-47 | a value that is changed although the lookup succeeds |
| FormParse.StoreValue | components/epm_drivers/http_form_parse.c:44-46 | copy, terminate, decode, within the given size |
| FormParse.LookupStep | components/epm_drivers/http_form_parse.c:35-54 | one pair of the walk matches or is skipped |
| FormParse.PairMatches | components/epm_drivers/http_form_parse.c:39-39 | an encoded pair matches a key exactly when its own key is encoded so: keys are compared undecoded |
| FormParse.LookupInForm | components/epm_drivers/http_form_parse.c:32-56 | in a submitted form the lookup finds the encoded value of the first field whose key is encoded as the key |
| FormParse.FieldRoundTrip | components/epm_drivers/http_form_parse.c:26-57 | for a plain key the stored value is the first such field's value exactly when its encoding fits or the cut is such a lucky one |

## Left out

- Floating point: rounding, overflow of `exp`, NaN other than an omitted fusion channel, and the dB conversion and its 1e-12 floor are not modelled; C sizes and counters do not wrap.
- The seeding of the RUL state from the kurtosis baseline during the first 60 frames (`mic_tools/recv_verify.py:493-497`) is not part of the pipeline's run; RulTrajectory.RunEndsBestTrajectory holds from any state, hence from the last seeded one on.
- SatellitePipeline.Satellite.ProcessFrame: the z-scores of the tree detector and the autoencoder, the tree detector's presence and its drift report are arbitrary inputs of every frame, so the results hold for any value of them; the RUL estimator, which runs on every accepted frame, is proved on its own.
- KurtosisResponse.CalibratedLowersExactly: assumes that the foreign channels' evidence does not fall as the kurtosis rises; KurtosisResponse.EveryLevelIsLoweredTo does not. Both score with a fixed calibration, so the one frame that completes it is covered only as scored, not as calibrating.
- SatellitePipeline.Satellite.constructor: the satellite starts with cleared baselines; restoring stored ones is AdaptiveBaselines.AdaptiveBaseline.LoadStateDict, and the lemmas about runs hold for any initial baselines, except SatellitePipeline.CalibrationFollows, which starts with a cleared RMS baseline.
- The model override of the emitted alert (`gateway/pipeline/alerting.py:336-355`), which bypasses the hysteresis by design.
- MqttIngestion.MqttIngestor.OnMessage: nodes and their satellites are values in a map, so it does not capture that two tables share one satellite object; processing a frame is the step that SatellitePipeline.Satellite.ProcessFrame implements on objects.
- WelchBuffer.DspTask.Receive: the FFT with its window is an arbitrary function of the window; the spectral centroid and the latched scalars are not part of the frame.
- EndToEnd.SatelliteFrameIsProcessed: the reduction of the FFT's bins to the bins sent, and the sampling rates; any values are allowed.
- SnapshotRing.Ring.ReadChunk: a read runs to its end before the next push; reads between pushes are covered, but the firmware also lets a push overlap a read.
- AccelFifo.Driver.FillEpoch: register setup, the interrupt and the full-FIFO diagnostic counter.
- Envelope.Biquad.constructor: the cosine and sine of the filter design; any coefficients with a0 not zero are allowed.
- Provisioning.CaptivePortal.HandleSubmit: receiving the body and checking the fields come before the critical section; a submission is one that passed them.
- Provisioning: `wifi_task.c` is not part of this model; whether a wait succeeds is up to the environment. The access point's password variant, the DNS server and the statistics counters are left out.
- FormParse.GetValue: the output buffer is distinct from the body and the key.
- Fault labels, dashboards, storage, notifications, the legacy TCP transport, LEDs and adaptive control: presentation, I/O or tables.
