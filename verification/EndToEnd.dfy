/** From the firmware's encoder to the gateway's pipeline: what a satellite publishes is what its alert is
    computed from. */
module EndToEnd {
  import opened IntMath
  import opened CodecAgreement
  import opened MqttIngestion
  import opened SatellitePipeline
  import opened RealMath
  import opened SpectrumCodec
  import opened TelemetryFrame
  import opened TelemetryWire
  import opened Wrappers

  const CHANNEL_MIC: Byte := 0

  /** A frame the gateway's decoder can read back: distinct known channels and scalar ids, counts that fit. */
  predicate Encodable(channels: seq<Channel>, scalars: seq<Scalar>) {
    && CountsFit(channels) && LengthsFit(channels) && NumSections(channels, scalars) <= 0xFF && |scalars| <= 0xFF
    && DistinctChannels(channels) && DistinctScalars(scalars)
  }

  /** The value sent under an id, zero when there is none. */
  function SentScalar(num: Numerics, scalars: seq<Scalar>, id: U16): real {
    if scalars == [] then 0.0
    else if scalars[0].id == id then num.value(scalars[0].value)
    else SentScalar(num, scalars[1..], id)
  }

  predicate Sends(scalars: seq<Scalar>, id: U16) { exists i :: 0 <= i < |scalars| && scalars[i].id == id }

  /** The spectrum sent for a channel, empty when there is none. */
  function SentBins(channels: seq<Channel>, id: Byte): seq<Float32> {
    if channels == [] then []
    else if channels[0].id == id then channels[0].bins
    else SentBins(channels[1..], id)
  }

  lemma {:induction false} SentScalarIs(num: Numerics, scalars: seq<Scalar>, i: nat)
    requires DistinctScalars(scalars) && i < |scalars|
    ensures SentScalar(num, scalars, scalars[i].id) == num.value(scalars[i].value)
    decreases |scalars|
  {
    if i > 0 {
      SentScalarIs(num, scalars[1..], i - 1);
    }
  }

  lemma {:induction false} NotSent(num: Numerics, scalars: seq<Scalar>, id: U16)
    requires !Sends(scalars, id)
    ensures SentScalar(num, scalars, id) == 0.0
    decreases |scalars|
  {
    if scalars != [] {
      assert scalars[0].id != id;
      assert forall i :: 0 <= i < |scalars| - 1 ==> scalars[1..][i] == scalars[i + 1];
      NotSent(num, scalars[1..], id);
    }
  }

  lemma ScalarArrives(num: Numerics, d: DecodedFrame, scalars: seq<Scalar>, id: U16)
    requires DistinctScalars(scalars) && HoldsScalars(d.scalars, scalars)
    ensures ScalarOr(num, d, id, 0.0) == SentScalar(num, scalars, id)
    ensures id in d.scalars <==> Sends(scalars, id)
    ensures id in d.scalars ==> num.value(d.scalars[id]) == SentScalar(num, scalars, id)
  {
    hide SentScalar;
    if i :| 0 <= i < |scalars| && scalars[i].id == id {
      SentScalarIs(num, scalars, i);
    } else {
      NotSent(num, scalars, id);
    }
  }

  lemma {:induction false} SentBinsAre(channels: seq<Channel>, i: nat)
    requires DistinctChannels(channels) && i < |channels|
    ensures SentBins(channels, channels[i].id) == channels[i].bins
    decreases |channels|
  {
    if i > 0 {
      SentBinsAre(channels[1..], i - 1);
    }
  }

  lemma {:induction false} NoBinsSent(channels: seq<Channel>, id: Byte)
    requires forall i :: 0 <= i < |channels| ==> channels[i].id != id
    ensures SentBins(channels, id) == []
    decreases |channels|
  {
    if channels != [] {
      NoBinsSent(channels[1..], id);
    }
  }

  lemma MicSpectrumArrives(d: DecodedFrame, channels: seq<Channel>)
    requires DistinctChannels(channels) && CarriesChannels(d, channels)
    ensures (if "mic" in d.bins then d.bins["mic"] else []) == SentBins(channels, CHANNEL_MIC)
  {
    assert ChannelName(CHANNEL_MIC) == "mic";
    if i :| 0 <= i < |channels| && channels[i].id == CHANNEL_MIC {
      SentBinsAre(channels, i);
      assert CarriesChannel(d, channels[i]);
    } else {
      NoBinsSent(channels, CHANNEL_MIC);
      if "mic" in d.bins {
        var i :| 0 <= i < |channels| && ChannelName(channels[i].id) == "mic";
        NamesDistinct(channels[i].id, CHANNEL_MIC);
        assert false;
      }
    }
  }

  const AXES: seq<U16> := [11, 17, 23]

  /** The largest crest factor among the axes sent, zero when none is. */
  ghost predicate IsWorstAxis(num: Numerics, scalars: seq<Scalar>, c: real) {
    && (forall id :: id in AXES && Sends(scalars, id) ==> SentScalar(num, scalars, id) <= c)
    && (if exists id :: id in AXES && Sends(scalars, id)
        then exists id :: id in AXES && Sends(scalars, id) && SentScalar(num, scalars, id) == c
        else c == 0.0)
  }

  lemma {:induction false} PresentIs(num: Numerics, d: DecodedFrame, ids: seq<U16>)
    ensures forall id :: id in ids && id in d.scalars ==> num.value(d.scalars[id]) in Present(num, d, ids)
    ensures forall x :: x in Present(num, d, ids) ==> exists id :: id in ids && id in d.scalars && num.value(d.scalars[id]) == x
    decreases |ids|
  {
    if ids != [] {
      PresentIs(num, d, ids[1..]);
      assert ids == [ids[0]] + ids[1..];
    }
  }

  lemma WorstAxisArrives(num: Numerics, d: DecodedFrame, scalars: seq<Scalar>)
    requires DistinctScalars(scalars) && HoldsScalars(d.scalars, scalars)
    ensures IsWorstAxis(num, scalars, ImuCrest(num, d))
  {
    hide Present, SentScalar, Sends, HoldsScalars;
    PresentIs(num, d, AXES);
    forall id: U16 ensures id in d.scalars <==> Sends(scalars, id)
                   ensures id in d.scalars ==> num.value(d.scalars[id]) == SentScalar(num, scalars, id)
    {
      ScalarArrives(num, d, scalars, id);
    }
    if id :| id in AXES && id in d.scalars {
      assert num.value(d.scalars[id]) in Present(num, d, AXES);
    }
  }

  /** What the pipeline sees of a frame that the firmware encoded. */
  ghost predicate Carries(num: Numerics, f: Frame, channels: seq<Channel>, scalars: seq<Scalar>) {
    && f.rms == SentScalar(num, scalars, 25)
    && f.kurtosis == SentScalar(num, scalars, 26)
    && f.crest == SentScalar(num, scalars, 29)
    && f.hb == num.highBand(SentBins(channels, CHANNEL_MIC))
    && IsWorstAxis(num, scalars, f.imuCrest)
  }

  lemma FrameArrives(num: Numerics, d: DecodedFrame, channels: seq<Channel>, scalars: seq<Scalar>, id: nat, r: Report)
    requires DistinctChannels(channels) && CarriesChannels(d, channels)
    requires DistinctScalars(scalars) && HoldsScalars(d.scalars, scalars)
    ensures var f := ToFrame(num, d, id, r);
            Carries(num, f, channels, scalars) && f.id == id && f.extra == r.extra && f.hst == r.hst && f.drift == r.drift
  {
    hide SentScalar, SentBins, HoldsScalars, CarriesChannels, IsWorstAxis, ImuCrest, ScalarOr, Sends;
    ScalarArrives(num, d, scalars, RMS_MIC);
    ScalarArrives(num, d, scalars, KURTOSIS_MIC);
    ScalarArrives(num, d, scalars, CREST_FACTOR_MIC);
    MicSpectrumArrives(d, channels);
    WorstAxisArrives(num, d, scalars);
  }

  function Topic(node: string): string { "epm" + "/" + node + "/" + "data" }

  /** The message a satellite publishes, with what is reported while it is processed. */
  function Published(node: string, channels: seq<Channel>, scalars: seq<Scalar>, r: Report): Message
    requires Encodable(channels, scalars)
  {
    Message(Topic(node), FrameBytes(channels, scalars), r)
  }

  /** A published frame, whatever other nodes sent before it, is processed by its own node's pipeline as the
      next frame of that node, with the statistics and the spectrum that the firmware encoded. */
  lemma PublishedFrameIsProcessed(g: Gateway, before: seq<Message>, node: string, channels: seq<Channel>,
                                  scalars: seq<Scalar>, r: Report)
    returns (f: Frame)
    requires g.config.Valid() && '/' !in node && Encodable(channels, scalars)
    ensures Carries(g.num, f, channels, scalars) && f.extra == r.extra && f.hst == r.hst && f.drift == r.drift
    ensures var ms := before + [Published(node, channels, scalars, r)];
            && FramesOf(g.num, ms, node) == FramesOf(g.num, before, node) + [f]
            && f.id == |FramesOf(g.num, before, node)| + 1
            && node in ReceiveAll(g, ms)
            && ReceiveAll(g, ms)[node].state == Run(g.config, Registered(g, node), FramesOf(g.num, before, node) + [f])
  {
    hide FrameBytes, Decode, CarriesChannels, HoldsScalars, ToFrame, Carries, NodeId, Run, Config.Valid;
    var m := Published(node, channels, scalars, r);
    var ms := before + [m];
    TopicNamesNode(node);
    DecodedExactly(channels, scalars);
    var d := Decode(m.payload).value;
    var n := |FramesOf(g.num, before, node)|;
    f := ToFrame(g.num, d, n + 1, r);
    FrameArrives(g.num, d, channels, scalars, n + 1, r);
    assert ms[..|before|] == before && Readable(m) == Some((node, d));
    NodesAreIndependent(g, ms, node);
    assert FramesOf(g.num, ms, node)[n] == f;
  }

  // ----- The statistics a satellite sends

  /** The statistics of the microphone or of one accelerometer axis. */
  datatype AxisScalars = AxisScalars(rms: Float32, kurtosis: Float32, std: Float32, peak: Float32, crest: Float32,
                                     skewness: Float32)

  /** Six scalars under consecutive ids. */
  function AxisEntries(s: AxisScalars, base: U16): seq<Scalar>
    requires base + 5 < 65536
  {
    [Scalar(base, s.rms), Scalar(base + 1, s.kurtosis), Scalar(base + 2, s.std), Scalar(base + 3, s.peak),
     Scalar(base + 4, s.crest), Scalar(base + 5, s.skewness)]
  }

  function NodeScalars(x: AxisScalars, y: AxisScalars, z: AxisScalars, mic: AxisScalars): seq<Scalar> {
    AxisEntries(x, 7) + AxisEntries(y, 13) + AxisEntries(z, 19) + AxisEntries(mic, 25)
  }

  lemma NodeScalarsAre(x: AxisScalars, y: AxisScalars, z: AxisScalars, mic: AxisScalars)
    ensures var s := NodeScalars(x, y, z, mic);
            && |s| == 24 && (forall i :: 0 <= i < 24 ==> s[i].id == 7 + i)
            && s[4].value == x.crest && s[10].value == y.crest && s[16].value == z.crest
            && s[18].value == mic.rms && s[19].value == mic.kurtosis && s[22].value == mic.crest
  {
  }

  /** The pipeline sees the microphone's rms value, kurtosis and crest factor as the satellite computed them, and of
      the axes' crest factors the largest. */
  lemma StatisticsArrive(num: Numerics, f: Frame, channels: seq<Channel>, x: AxisScalars, y: AxisScalars, z: AxisScalars,
                         mic: AxisScalars)
    requires Carries(num, f, channels, NodeScalars(x, y, z, mic))
    ensures DistinctScalars(NodeScalars(x, y, z, mic))
    ensures f.rms == num.value(mic.rms) && f.kurtosis == num.value(mic.kurtosis) && f.crest == num.value(mic.crest)
    ensures f.imuCrest == Max(num.value(x.crest), Max(num.value(y.crest), num.value(z.crest)))
  {
    hide SentScalar, SentBins, NodeScalars;
    var s := NodeScalars(x, y, z, mic);
    NodeScalarsAre(x, y, z, mic);
    SentScalarIs(num, s, 18);
    SentScalarIs(num, s, 19);
    SentScalarIs(num, s, 22);
    SentScalarIs(num, s, 4);
    SentScalarIs(num, s, 10);
    SentScalarIs(num, s, 16);
    assert Sends(s, s[4].id) && Sends(s, s[10].id) && Sends(s, s[16].id);
    assert AXES == [s[4].id, s[10].id, s[16].id];
  }

  /** The seven spectra a satellite sends: the microphone's, the axes' and the axes' envelopes. */
  predicate NodeChannels(channels: seq<Channel>) {
    && |channels| == 7
    && forall i :: 0 <= i < 7 ==> channels[i].id == [0, 6, 7, 8, 9, 10, 11][i] && |channels[i].bins| <= 16381
  }

  lemma NodeFrameIsEncodable(channels: seq<Channel>, x: AxisScalars, y: AxisScalars, z: AxisScalars, mic: AxisScalars)
    requires NodeChannels(channels)
    ensures Encodable(channels, NodeScalars(x, y, z, mic))
    ensures SentBins(channels, 0) == channels[0].bins
  {
    hide NodeScalars;
    NodeScalarsAre(x, y, z, mic);
    SentBinsAre(channels, 0);
  }

  /** Every frame a satellite publishes is processed as its next one, with its microphone's statistics, its worst axis
      and its microphone's spectrum. */
  lemma SatelliteFrameIsProcessed(g: Gateway, before: seq<Message>, node: string, channels: seq<Channel>,
                                  x: AxisScalars, y: AxisScalars, z: AxisScalars, mic: AxisScalars, r: Report)
    returns (f: Frame)
    requires g.config.Valid() && '/' !in node && NodeChannels(channels)
    ensures Encodable(channels, NodeScalars(x, y, z, mic))
    ensures f.rms == g.num.value(mic.rms) && f.kurtosis == g.num.value(mic.kurtosis) && f.crest == g.num.value(mic.crest)
    ensures f.imuCrest == Max(g.num.value(x.crest), Max(g.num.value(y.crest), g.num.value(z.crest)))
    ensures f.hb == g.num.highBand(channels[0].bins)
    ensures var ms := before + [Published(node, channels, NodeScalars(x, y, z, mic), r)];
            && node in ReceiveAll(g, ms)
            && ReceiveAll(g, ms)[node].state == Run(g.config, Registered(g, node), FramesOf(g.num, before, node) + [f])
  {
    hide NodeScalars, NodeChannels, Encodable, Run, Published, SentBins, Config.Valid;
    NodeFrameIsEncodable(channels, x, y, z, mic);
    f := PublishedFrameIsProcessed(g, before, node, channels, NodeScalars(x, y, z, mic), r);
    StatisticsArrive(g.num, f, channels, x, y, z, mic);
  }
}
