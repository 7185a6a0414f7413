/** What the gateway decodes from the frames the firmware builds. */
module CodecAgreement {
  import opened IntMath
  import opened TelemetryWire
  import opened TelemetryFrame
  import opened SpectrumCodec
  import opened Wrappers

  /** The largest bin count whose section length fits its 16-bit field. */
  const MAX_BINS := 16381

  predicate LengthsFit(channels: seq<Channel>) {
    forall i :: 0 <= i < |channels| ==> |channels[i].bins| <= MAX_BINS
  }

  // ----- Body round trips: whatever follows the counted values in a body is ignored

  lemma SpectrumBodyRoundTrip(acc: DecodedFrame, channel: Byte, fs: Float32, fftSize: U16, bins: seq<Float32>, tail: seq<Byte>)
    requires |bins| < 65536
    ensures MergeSpectrum(acc, channel, SpectrumBody(fs, fftSize, bins) + tail) ==
            Ok(if !Known(channel) then acc.(unknownSections := acc.unknownSections + 1)
               else acc.(spectra := acc.spectra[ChannelName(channel) := ChannelSpectrum(fs, fftSize, bins)],
                         bins := if bins != [] then acc.bins[ChannelName(channel) := bins] else acc.bins))
  {
    hide ReadF32s, PackF32s, ReadF32, PackF32, ReadU16, PackU16;
    var head, body := PackF32(fs) + PackU16(fftSize) + PackU16(|bins|), SpectrumBody(fs, fftSize, bins) + tail;
    var values := PackF32s(bins) + tail;
    assert body == [] + PackF32(fs) + (PackU16(fftSize) + PackU16(|bins|) + values);
    F32RoundTrip([], fs, PackU16(fftSize) + PackU16(|bins|) + values);
    assert body == PackF32(fs) + PackU16(fftSize) + (PackU16(|bins|) + values);
    U16RoundTrip(PackF32(fs), fftSize, PackU16(|bins|) + values);
    assert body == (PackF32(fs) + PackU16(fftSize)) + PackU16(|bins|) + values;
    U16RoundTrip(PackF32(fs) + PackU16(fftSize), |bins|, values);
    assert body == head + PackF32s(bins) + tail;
    F32sRoundTrip(head, bins, tail);
  }

  lemma ScalarBodyRoundTrip(acc: DecodedFrame, ids: seq<U16>, values: seq<Float32>, tail: seq<Byte>)
    requires |ids| == |values| < 256
    ensures MergeScalarSet(acc, ScalarBody(ids, values) + tail)
         == Ok(acc.(scalars := StoreScalars(acc.scalars, ids, values)))
  {
    hide ReadF32s, PackF32s, ReadU16s, PackU16s;
    var body := ScalarBody(ids, values) + tail;
    assert body == [|ids|] + PackU16s(ids) + (PackF32s(values) + tail);
    U16sRoundTrip([|ids|], ids, PackF32s(values) + tail);
    assert body == ([|ids|] + PackU16s(ids)) + PackF32s(values) + tail;
    F32sRoundTrip([|ids|] + PackU16s(ids), values, tail);
  }

  lemma TimeSeriesBodyRoundTrip(acc: DecodedFrame, channel: Byte, fs: Float32, samples: seq<Float32>, tail: seq<Byte>)
    requires |samples| < 65536
    ensures MergeTimeSeries(acc, channel, TimeSeriesBody(fs, samples) + tail) ==
            Ok(acc.(timeSeries := acc.timeSeries[channel := TimeSeries(fs, samples)]))
  {
    hide ReadF32s, PackF32s, ReadF32, PackF32, ReadU16, PackU16;
    var body, values := TimeSeriesBody(fs, samples) + tail, PackF32s(samples) + tail;
    assert body == [] + PackF32(fs) + (PackU16(|samples|) + values);
    F32RoundTrip([], fs, PackU16(|samples|) + values);
    assert body == PackF32(fs) + PackU16(|samples|) + values;
    U16RoundTrip(PackF32(fs), |samples|, values);
    assert body == (PackF32(fs) + PackU16(|samples|)) + PackF32s(samples) + tail;
    F32sRoundTrip(PackF32(fs) + PackU16(|samples|), samples, tail);
  }

  // ----- Which sections are accepted

  /** The body begins with one that the encoder of its kind writes. */
  ghost predicate BeginsEncoded(kind: Byte, body: seq<Byte>) {
    && (kind == 1 ==> exists fs, fftSize, bins, tail :: |bins| < 65536 && body == SpectrumBody(fs, fftSize, bins) + tail)
    && (kind == 2 ==> exists fs, samples, tail :: |samples| < 65536 && body == TimeSeriesBody(fs, samples) + tail)
    && (kind == 3 ==> exists ids, values, tail :: |ids| == |values| < 256 && body == ScalarBody(ids, values) + tail)
  }

  lemma SpectrumBehind(acc: DecodedFrame, channel: Byte, body: seq<Byte>)
    returns (fs: Float32, fftSize: U16, bins: seq<Float32>, tail: seq<Byte>)
    requires MergeSpectrum(acc, channel, body).Ok?
    ensures |bins| < 65536 && body == SpectrumBody(fs, fftSize, bins) + tail
  {
    var count: nat := ReadU16(body, 6);
    var end := 8 + 4 * count;
    assert end <= |body|;
    hide *;
    fs, fftSize, bins, tail := ReadF32(body, 0), ReadU16(body, 4), ReadF32s(body, 8, count), body[end..];
    F32IsBytes(body, 0);
    U16IsBytes(body, 4);
    U16IsBytes(body, 6);
    F32sAreBytes(body, 8, count);
    CutInFour(body, 4, 6, 8, end);
    SpectrumBodyParts(fs, fftSize, bins);
  }

  lemma SpectrumBodyParts(fs: Float32, fftSize: U16, bins: seq<Float32>)
    requires |bins| < 65536
    ensures SpectrumBody(fs, fftSize, bins) == PackF32(fs) + PackU16(fftSize) + PackU16(|bins|) + PackF32s(bins)
  {
  }

  lemma CutInFour(s: seq<Byte>, i: nat, j: nat, k: nat, end: nat)
    requires i <= j <= k <= end <= |s|
    ensures s == s[0..i] + s[i..j] + s[j..k] + s[k..end] + s[end..]
  {
  }

  lemma TimeSeriesBehind(acc: DecodedFrame, channel: Byte, body: seq<Byte>)
    returns (fs: Float32, samples: seq<Float32>, tail: seq<Byte>)
    requires MergeTimeSeries(acc, channel, body).Ok?
    ensures |samples| < 65536 && body == TimeSeriesBody(fs, samples) + tail
  {
    var count: nat := ReadU16(body, 4);
    var end := 6 + 4 * count;
    assert end <= |body|;
    hide *;
    fs, samples, tail := ReadF32(body, 0), ReadF32s(body, 6, count), body[end..];
    F32IsBytes(body, 0);
    U16IsBytes(body, 4);
    F32sAreBytes(body, 6, count);
    CutInThree(body, 4, 6, end);
    TimeSeriesBodyParts(fs, samples);
  }

  lemma TimeSeriesBodyParts(fs: Float32, samples: seq<Float32>)
    requires |samples| < 65536
    ensures TimeSeriesBody(fs, samples) == PackF32(fs) + PackU16(|samples|) + PackF32s(samples)
  {
  }

  lemma CutInThree(s: seq<Byte>, i: nat, j: nat, end: nat)
    requires i <= j <= end <= |s|
    ensures s == s[0..i] + s[i..j] + s[j..end] + s[end..]
  {
  }

  lemma ScalarsBehind(acc: DecodedFrame, body: seq<Byte>) returns (ids: seq<U16>, values: seq<Float32>, tail: seq<Byte>)
    requires MergeScalarSet(acc, body).Ok?
    ensures |ids| == |values| < 256 && body == ScalarBody(ids, values) + tail
  {
    var count: nat := body[0];
    var mid, end := 1 + 2 * count, 1 + 6 * count;
    assert end <= |body|;
    hide *;
    ids, values, tail := ReadU16s(body, 1, count), ReadF32s(body, mid, count), body[end..];
    U16sAreBytes(body, 1, count);
    F32sAreBytes(body, mid, count);
    CutInThree(body, 1, mid, end);
    ScalarBodyParts(ids, values);
    assert body[0..1] == [count];
  }

  lemma ScalarBodyParts(ids: seq<U16>, values: seq<Float32>)
    requires |ids| == |values| < 256
    ensures ScalarBody(ids, values) == [|ids|] + PackU16s(ids) + PackF32s(values)
  {
  }

  /** A section is accepted exactly when its body begins with one that the encoder of its kind writes; sections of
      other kinds always are. */
  lemma AcceptsExactly(acc: DecodedFrame, s: Section)
    ensures Merge(acc, s).Ok? <==> BeginsEncoded(s.kind, s.body)
  {
    hide MergeSpectrum, MergeScalarSet, MergeTimeSeries, SpectrumBody, ScalarBody, TimeSeriesBody;
    if Merge(acc, s).Ok? {
      if s.kind == 1 {
        var fs, fftSize, bins, tail := SpectrumBehind(acc, s.channel, s.body);
      } else if s.kind == 2 {
        var fs, samples, tail := TimeSeriesBehind(acc, s.channel, s.body);
      } else if s.kind == 3 {
        var ids, values, tail := ScalarsBehind(acc, s.body);
      }
    } else if BeginsEncoded(s.kind, s.body) {
      if s.kind == 1 {
        var fs, fftSize, bins, tail :| |bins| < 65536 && s.body == SpectrumBody(fs, fftSize, bins) + tail;
        SpectrumBodyRoundTrip(acc, s.channel, fs, fftSize, bins, tail);
      } else if s.kind == 2 {
        var fs, samples, tail :| |samples| < 65536 && s.body == TimeSeriesBody(fs, samples) + tail;
        TimeSeriesBodyRoundTrip(acc, s.channel, fs, samples, tail);
      } else if s.kind == 3 {
        var ids, values, tail :| |ids| == |values| < 256 && s.body == ScalarBody(ids, values) + tail;
        ScalarBodyRoundTrip(acc, ids, values, tail);
      }
    }
  }

  // ----- The builder's frame as a list of sections

  function SpectrumSection(c: Channel): Section
    requires |c.bins| < 65536
  {
    Section(SOURCE_SATELLITE, c.id, KIND_SPECTRUM, SpectrumBody(c.fs, c.fftSize, c.bins))
  }

  function SpectrumSections(channels: seq<Channel>): (ss: seq<Section>)
    requires CountsFit(channels)
    ensures |ss| == |channels|
    ensures forall i :: 0 <= i < |ss| ==> ss[i] == SpectrumSection(channels[i])
  {
    seq(|channels|, i requires 0 <= i < |channels| => SpectrumSection(channels[i]))
  }

  function ScalarSections(scalars: seq<Scalar>): (ss: seq<Section>)
    requires |scalars| <= 0xFF
    ensures forall i :: 0 <= i < |ss| ==> Fits(ss[i])
  {
    if scalars == [] then [] else
      [Section(SOURCE_SATELLITE, CHANNEL_PERF, KIND_SCALAR_SET, ScalarBody(Ids(scalars), Values(scalars)))]
  }

  lemma {:induction false} PackSectionsSplits(a: seq<Section>, b: seq<Section>)
    requires forall i :: 0 <= i < |a| ==> Fits(a[i])
    requires forall i :: 0 <= i < |b| ==> Fits(b[i])
    ensures PackSections(a + b) == PackSections(a) + PackSections(b)
    decreases |a|
  {
    hide PackSection;
    if a == [] {
      assert a + b == b;
    } else {
      assert (a + b)[1..] == a[1..] + b;
      PackSectionsSplits(a[1..], b);
    }
  }

  lemma SinglePacked(s: Section)
    requires Fits(s)
    ensures PackSections([s]) == PackSection(s)
  {
    hide PackSection;
    assert [s][1..] == [] && PackSection(s) + [] == PackSection(s);
  }

  lemma ChannelPacked(c: Channel)
    requires |c.bins| <= MAX_BINS
    ensures Fits(SpectrumSection(c)) && ChannelBytes(c) == PackSection(SpectrumSection(c))
  {
    hide Header, PackF32s;
  }

  lemma ScalarsPacked(scalars: seq<Scalar>)
    requires |scalars| <= 0xFF
    ensures ScalarsBytes(scalars) == PackSections(ScalarSections(scalars))
  {
    hide Header, ScalarBody, Ids, Values, PackSections;
    if scalars == [] {
      NothingPacked();
    } else {
      SinglePacked(ScalarSections(scalars)[0]);
    }
  }

  lemma NothingPacked()
    ensures PackSections([]) == []
  {
  }

  lemma {:induction false} ChannelsArePacked(channels: seq<Channel>)
    requires CountsFit(channels) && LengthsFit(channels)
    ensures forall i :: 0 <= i < |channels| ==> Fits(SpectrumSections(channels)[i])
    ensures ChannelsBytes(channels) == PackSections(SpectrumSections(channels))
    decreases |channels|
  {
    hide ChannelBytes, SpectrumSection, PackSection, PackSections, Fits;
    if channels == [] {
      assert SpectrumSections(channels) == [];
      NothingPacked();
    } else {
      var init, last := channels[..|channels| - 1], channels[|channels| - 1];
      ChannelsArePacked(init);
      ChannelPacked(last);
      assert SpectrumSections(channels) == SpectrumSections(init) + [SpectrumSection(last)];
      PackSectionsSplits(SpectrumSections(init), [SpectrumSection(last)]);
      SinglePacked(SpectrumSection(last));
    }
  }

  /** When every section length fits its field, the builder emits exactly the bytes of the gateway's own
      encoder for the same sections. */
  lemma BuilderMatchesEncoder(channels: seq<Channel>, scalars: seq<Scalar>)
    requires CountsFit(channels) && LengthsFit(channels) && NumSections(channels, scalars) <= 0xFF && |scalars| <= 0xFF
    ensures EncodeFrame(SpectrumSections(channels) + ScalarSections(scalars)) == Some(FrameBytes(channels, scalars))
  {
    hide ChannelsBytes, ScalarsBytes, PackSections, SpectrumSection, ScalarBody, Fits;
    var a, b := SpectrumSections(channels), ScalarSections(scalars);
    ChannelsArePacked(channels);
    ScalarsPacked(scalars);
    PackSectionsSplits(a, b);
    assert [|a + b|] + (PackSections(a) + PackSections(b)) == [|a + b|] + PackSections(a) + PackSections(b);
  }

  // ----- What is decoded

  lemma NamesDistinct(i: Byte, j: Byte)
    requires Known(i) && Known(j) && i != j
    ensures ChannelName(i) != ChannelName(j)
  {
  }

  predicate DistinctChannels(channels: seq<Channel>) {
    && (forall i :: 0 <= i < |channels| ==> Known(channels[i].id))
    && (forall i, j :: 0 <= i < j < |channels| ==> channels[i].id != channels[j].id)
  }

  predicate DistinctScalars(scalars: seq<Scalar>) {
    forall i, j :: 0 <= i < j < |scalars| ==> scalars[i].id != scalars[j].id
  }

  predicate CarriesChannel(f: DecodedFrame, c: Channel)
    requires Known(c.id)
  {
    var name := ChannelName(c.id);
    && name in f.spectra && f.spectra[name] == ChannelSpectrum(c.fs, c.fftSize, c.bins)
    && (name in f.bins <==> c.bins != []) && (c.bins != [] ==> f.bins[name] == c.bins)
  }

  /** The frame holds these channels and nothing under any other name. */
  predicate CarriesChannels(f: DecodedFrame, channels: seq<Channel>)
    requires DistinctChannels(channels)
  {
    && (forall i :: 0 <= i < |channels| ==> CarriesChannel(f, channels[i]))
    && (forall name :: name in f.spectra ==> exists i :: 0 <= i < |channels| && ChannelName(channels[i].id) == name)
    && f.bins.Keys <= f.spectra.Keys
  }

  /** The map holds these scalars and no others. */
  predicate HoldsScalars(m: map<U16, Float32>, scalars: seq<Scalar>) {
    && (forall i :: 0 <= i < |scalars| ==> scalars[i].id in m && m[scalars[i].id] == scalars[i].value)
    && (forall id :: id in m ==> exists i :: 0 <= i < |scalars| && scalars[i].id == id)
  }

  predicate OnlySpectra(f: DecodedFrame) { f.scalars == map[] && f.timeSeries == map[] && f.unknownSections == 0 }

  lemma AddChannel(f: DecodedFrame, channels: seq<Channel>, c: Channel, f': DecodedFrame)
    requires Known(c.id) && DistinctChannels(channels + [c]) && DistinctChannels(channels) && CarriesChannels(f, channels)
    requires var name := ChannelName(c.id);
             f' == f.(spectra := f.spectra[name := ChannelSpectrum(c.fs, c.fftSize, c.bins)],
                      bins := if c.bins != [] then f.bins[name := c.bins] else f.bins)
    ensures CarriesChannels(f', channels + [c])
  {
    hide ChannelName;
    var all, name := channels + [c], ChannelName(c.id);
    assert Known(all[|channels|].id);
    forall i | 0 <= i < |channels|
      ensures ChannelName(channels[i].id) != name && CarriesChannel(f', all[i])
    {
      assert CarriesChannel(f, channels[i]) && all[i] == channels[i];
      assert all[i].id != all[|channels|].id;
      NamesDistinct(channels[i].id, c.id);
    }
    assert name !in f.spectra;
    assert CarriesChannel(f', all[|channels|]);
    forall n | n in f'.spectra
      ensures exists i :: 0 <= i < |all| && ChannelName(all[i].id) == n
    {
      if n == name {
        assert ChannelName(all[|channels|].id) == n;
      } else {
        var i :| 0 <= i < |channels| && ChannelName(channels[i].id) == n;
        assert ChannelName(all[i].id) == n;
      }
    }
  }

  lemma ChannelMerged(f: DecodedFrame, channels: seq<Channel>, c: Channel)
    requires Known(c.id) && |c.bins| < 65536
    requires DistinctChannels(channels + [c]) && DistinctChannels(channels) && CarriesChannels(f, channels)
    ensures var r := MergeAll(f, [SpectrumSection(c)]);
            && r.Ok? && CarriesChannels(r.value, channels + [c])
            && r.value == f.(spectra := r.value.spectra, bins := r.value.bins)
  {
    hide MergeSpectrum, SpectrumBody, CarriesChannels, ChannelName, DistinctChannels;
    SpectrumBodyRoundTrip(f, c.id, c.fs, c.fftSize, c.bins, []);
    assert SpectrumBody(c.fs, c.fftSize, c.bins) + [] == SpectrumBody(c.fs, c.fftSize, c.bins);
    var r := MergeSpectrum(f, c.id, SpectrumBody(c.fs, c.fftSize, c.bins));
    assert [SpectrumSection(c)][1..] == [];
    AddChannel(f, channels, c, r.value);
  }

  lemma {:induction false} ChannelsDecode(channels: seq<Channel>)
    requires CountsFit(channels) && DistinctChannels(channels)
    ensures var r := MergeAll(EMPTY, SpectrumSections(channels));
            r.Ok? && CarriesChannels(r.value, channels) && OnlySpectra(r.value)
    decreases |channels|
  {
    hide Merge, SpectrumSection, CarriesChannel, ChannelName;
    if channels == [] {
      assert SpectrumSections(channels) == [];
    } else {
      var init, c := channels[..|channels| - 1], channels[|channels| - 1];
      assert channels == init + [c];
      ChannelsDecode(init);
      assert SpectrumSections(channels) == SpectrumSections(init) + [SpectrumSection(c)];
      MergeAllSplits(EMPTY, SpectrumSections(init), [SpectrumSection(c)]);
      ChannelMerged(MergeAll(EMPTY, SpectrumSections(init)).value, init, c);
    }
  }

  lemma AddScalar(m: map<U16, Float32>, scalars: seq<Scalar>, c: Scalar, m': map<U16, Float32>)
    requires DistinctScalars(scalars + [c]) && HoldsScalars(m, scalars) && m' == m[c.id := c.value]
    ensures HoldsScalars(m', scalars + [c])
  {
    var all := scalars + [c];
    forall i | 0 <= i < |scalars|
      ensures all[i].id != c.id && all[i].id in m' && m'[all[i].id] == all[i].value
    {
      assert all[i].id != all[|scalars|].id;
    }
    assert all[|scalars|] == c;
    forall id | id in m'
      ensures exists i :: 0 <= i < |all| && all[i].id == id
    {
      if id != c.id {
        var i :| 0 <= i < |scalars| && scalars[i].id == id;
        assert all[i].id == id;
      }
    }
  }

  lemma {:induction false} ScalarsStored(scalars: seq<Scalar>)
    requires DistinctScalars(scalars)
    ensures HoldsScalars(StoreScalars(map[], Ids(scalars), Values(scalars)), scalars)
    decreases |scalars|
  {
    if scalars != [] {
      hide HoldsScalars;
      var n := |scalars| - 1;
      var init := scalars[..n];
      ScalarsStored(init);
      assert Ids(scalars)[..n] == Ids(init) && Values(scalars)[..n] == Values(init);
      assert init + [scalars[n]] == scalars;
      AddScalar(StoreScalars(map[], Ids(init), Values(init)), init, scalars[n],
                StoreScalars(map[], Ids(scalars), Values(scalars)));
    }
  }

  /** The gateway decodes every frame the firmware builds from distinct known channels and distinct
      scalars, with at most 16381 bins a channel, to exactly those channels and scalars. */
  lemma DecodedExactly(channels: seq<Channel>, scalars: seq<Scalar>)
    requires CountsFit(channels) && LengthsFit(channels) && NumSections(channels, scalars) <= 0xFF && |scalars| <= 0xFF
    requires DistinctChannels(channels) && DistinctScalars(scalars)
    ensures var r := Decode(FrameBytes(channels, scalars));
            && r.Ok? && CarriesChannels(r.value, channels) && HoldsScalars(r.value.scalars, scalars)
            && r.value.timeSeries == map[] && r.value.unknownSections == 0
  {
    hide Decode, MergeScalarSet, FrameBytes, SpectrumSection, EncodeFrame, ScalarBody, StoreScalars, ChannelName, LengthsFit, CarriesChannels;
    var a, b := SpectrumSections(channels), ScalarSections(scalars);
    BuilderMatchesEncoder(channels, scalars);
    FrameRoundTrip(a + b);
    ChannelsDecode(channels);
    MergeAllSplits(EMPTY, a, b);
    var f := MergeAll(EMPTY, a).value;
    ScalarsStored(scalars);
    if scalars != [] {
      ScalarBodyRoundTrip(f, Ids(scalars), Values(scalars), []);
      assert ScalarBody(Ids(scalars), Values(scalars)) + [] == ScalarBody(Ids(scalars), Values(scalars));
      assert b[1..] == [];
      SameChannels(f, MergeAll(f, b).value, channels);
    }
  }

  lemma SameChannels(f: DecodedFrame, g: DecodedFrame, channels: seq<Channel>)
    requires DistinctChannels(channels) && CarriesChannels(f, channels)
    requires g.spectra == f.spectra && g.bins == f.bins
    ensures CarriesChannels(g, channels)
  {
    forall i | 0 <= i < |channels|
      ensures CarriesChannel(g, channels[i])
    {
      assert CarriesChannel(f, channels[i]);
    }
  }

  // ----- Oversized channels

  lemma {:induction false} SectionsAlwaysMerge(acc: DecodedFrame, channels: seq<Channel>)
    requires CountsFit(channels)
    ensures MergeAll(acc, SpectrumSections(channels)).Ok?
    decreases |channels|
  {
    if channels != [] {
      hide MergeSpectrum, SpectrumBody;
      var c := channels[0];
      SpectrumBodyRoundTrip(acc, c.id, c.fs, c.fftSize, c.bins, []);
      assert SpectrumBody(c.fs, c.fftSize, c.bins) + [] == SpectrumBody(c.fs, c.fftSize, c.bins);
      assert SpectrumSections(channels)[1..] == SpectrumSections(channels[1..]);
      SectionsAlwaysMerge(Merge(acc, SpectrumSection(c)).value, channels[1..]);
    }
  }

  /** A body cut off by the truncated section length is too short for the bin count it declares. */
  lemma CutBodyIsMalformed(acc: DecodedFrame, c: Channel)
    requires MAX_BINS < |c.bins| < 65536
    ensures var length := (8 + 4 * |c.bins|) % 65536;
            MergeSpectrum(acc, c.id, SpectrumBody(c.fs, c.fftSize, c.bins)[..length]) == Malformed
  {
    hide PackF32s, PackF32, PackU16, ReadU16, ReadF32;
    var length, count := (8 + 4 * |c.bins|) % 65536, |c.bins|;
    if length >= 8 {
      var body := SpectrumBody(c.fs, c.fftSize, c.bins)[..length];
      var head := PackF32(c.fs) + PackU16(c.fftSize);
      assert body == head + PackU16(count) + PackF32s(c.bins)[..length - 8];
      U16RoundTrip(head, count, PackF32s(c.bins)[..length - 8]);
    }
  }

  lemma OversizedIsMalformed(a: seq<Byte>, c: Channel, rest: seq<Byte>, n: nat, acc: DecodedFrame)
    requires MAX_BINS < |c.bins| < 65536 && n > 0
    ensures DecodeFrom(a + ChannelBytes(c) + rest, |a|, n, acc) == Malformed
  {
    hide SectionAt, Header, SpectrumBody, MergeSpectrum;
    var length, body := (8 + 4 * |c.bins|) % 65536, SpectrumBody(c.fs, c.fftSize, c.bins);
    assert a + ChannelBytes(c) + rest == a + Header(SOURCE_SATELLITE, c.id, KIND_SPECTRUM, length) + (body + rest);
    HeaderRoundTrip(a, SOURCE_SATELLITE, c.id, KIND_SPECTRUM, length, body + rest);
    assert (body + rest)[..length] == body[..length];
    CutBodyIsMalformed(acc, c);
  }

  lemma {:induction false} ChannelsBytesSplit(channels: seq<Channel>, k: nat)
    requires CountsFit(channels) && k < |channels|
    ensures exists rest :: ChannelsBytes(channels) == ChannelsBytes(channels[..k]) + ChannelBytes(channels[k]) + rest
    decreases |channels|
  {
    hide ChannelBytes;
    var init, last := channels[..|channels| - 1], channels[|channels| - 1];
    var front := ChannelsBytes(channels[..k]) + ChannelBytes(channels[k]);
    if k == |channels| - 1 {
      assert front == front + [];
    } else {
      ChannelsBytesSplit(init, k);
      assert init[..k] == channels[..k];
      var rest :| ChannelsBytes(init) == front + rest;
      assert ChannelsBytes(channels) == front + (rest + ChannelBytes(last));
    }
  }

  lemma FirstOversized(channels: seq<Channel>) returns (k: nat)
    requires !LengthsFit(channels)
    ensures k < |channels| && |channels[k].bins| > MAX_BINS && LengthsFit(channels[..k])
  {
    k := 0;
    while |channels[k].bins| <= MAX_BINS
      invariant k < |channels| && LengthsFit(channels[..k]) && !LengthsFit(channels[k..])
      decreases |channels| - k
    {
      assert channels[..k + 1] == channels[..k] + [channels[k]];
      assert forall i :: k < i < |channels| ==> channels[i] == channels[k + 1..][i - k - 1];
      k := k + 1;
    }
  }

  /** The gateway can decode a frame the firmware builds exactly when no channel has more than 16381
      bins; one more, and the truncated section length makes the whole frame malformed. This holds for
      any channel ids and scalar ids, known or not, repeated or not. */
  lemma DecodableExactlyWhenLengthsFit(channels: seq<Channel>, scalars: seq<Scalar>)
    requires CountsFit(channels) && NumSections(channels, scalars) <= 0xFF && |scalars| <= 0xFF
    ensures Decode(FrameBytes(channels, scalars)).Ok? <==> LengthsFit(channels)
  {
    hide ScalarBody, SpectrumSection, StoreScalars, MergeScalarSet, DecodeFrom, EncodeFrame, ChannelBytes, Fits, LengthsFit;
    if LengthsFit(channels) {
      var a, b := SpectrumSections(channels), ScalarSections(scalars);
      BuilderMatchesEncoder(channels, scalars);
      FrameRoundTrip(a + b);
      SectionsAlwaysMerge(EMPTY, channels);
      MergeAllSplits(EMPTY, a, b);
      if scalars != [] {
        ScalarBodyRoundTrip(MergeAll(EMPTY, a).value, Ids(scalars), Values(scalars), []);
        assert ScalarBody(Ids(scalars), Values(scalars)) + [] == ScalarBody(Ids(scalars), Values(scalars));
        assert b[1..] == [];
      }
    } else {
      var k := FirstOversized(channels);
      OversizedFrame(channels, scalars, k);
    }
  }

  lemma OversizedFrame(channels: seq<Channel>, scalars: seq<Scalar>, k: nat)
    requires CountsFit(channels) && NumSections(channels, scalars) <= 0xFF && |scalars| <= 0xFF
    requires k < |channels| && |channels[k].bins| > MAX_BINS && LengthsFit(channels[..k])
    ensures Decode(FrameBytes(channels, scalars)) == Malformed
  {
    hide ScalarsBytes, ChannelBytes, SpectrumSection, PackSections, DecodeFrom, MergeAll, Fits;
    var good, bad := channels[..k], channels[k];
    var n := NumSections(channels, scalars);
    ChannelsBytesSplit(channels, k);
    var rest :| ChannelsBytes(channels) == ChannelsBytes(good) + ChannelBytes(bad) + rest;
    var tail := rest + ScalarsBytes(scalars);
    var payload := FrameBytes(channels, scalars);
    ChannelsArePacked(good);
    SectionsAlwaysMerge(EMPTY, good);
    var front := [n] + PackSections(SpectrumSections(good));
    assert payload == [n] + PackSections(SpectrumSections(good)) + (ChannelBytes(bad) + tail);
    DecodePrefix([n], SpectrumSections(good), ChannelBytes(bad) + tail, n - k, EMPTY);
    assert payload == front + ChannelBytes(bad) + tail;
    OversizedIsMalformed(front, bad, tail, n - k, MergeAll(EMPTY, SpectrumSections(good)).value);
  }

  // ----- The gateway's own encoder sorts the scalars

  predicate Ascending(ids: seq<U16>) { forall i, j :: 0 <= i < j < |ids| ==> ids[i] < ids[j] }

  /** The keys of a dictionary in ascending order. */
  ghost function Sorted(keys: set<U16>): (r: seq<U16>)
    ensures Ascending(r) && (forall id :: id in r <==> id in keys) && |r| == |keys|
    decreases |keys|
  {
    if keys == {} then [] else
      var least := LeastOf(keys);
      PrependLeast(keys, least, Sorted(keys - {least}));
      [least] + Sorted(keys - {least})
  }

  ghost function LeastOf(keys: set<U16>): (least: U16)
    requires keys != {}
    ensures least in keys && forall id :: id in keys ==> least <= id
  {
    LeastExists(keys);
    var least :| least in keys && forall id :: id in keys ==> least <= id;
    least
  }

  lemma PrependLeast(keys: set<U16>, least: U16, rest: seq<U16>)
    requires least in keys && (forall id :: id in keys ==> least <= id)
    requires Ascending(rest) && (forall id :: id in rest <==> id in keys - {least}) && |rest| == |keys - {least}|
    ensures Ascending([least] + rest) && (forall id :: id in [least] + rest <==> id in keys) && |[least] + rest| == |keys|
  {
    forall i, j | 0 <= i < j < |[least] + rest|
      ensures ([least] + rest)[i] < ([least] + rest)[j]
    {
      assert rest[j - 1] in keys - {least};
    }
    assert keys == {least} + (keys - {least});
  }

  lemma LeastExists(keys: set<U16>)
    requires keys != {}
    ensures exists least :: least in keys && forall id :: id in keys ==> least <= id
  {
    var least := Least(keys);
  }

  lemma Least(keys: set<U16>) returns (least: U16)
    requires keys != {}
    ensures least in keys && forall id :: id in keys ==> least <= id
    decreases |keys|
  {
    least :| least in keys;
    var rest := keys - {least};
    if rest != {} {
      var other := Least(rest);
      assert forall id :: id in keys ==> id == least || id in rest;
      if other < least {
        least := other;
      }
    } else {
      assert keys == {least};
    }
  }

  lemma {:induction false} AscendingUnique(a: seq<U16>, b: seq<U16>)
    requires Ascending(a) && Ascending(b) && forall id :: id in a <==> id in b
    ensures a == b
    decreases |a|
  {
    assert b != [] ==> b[0] in b;
    if a != [] {
      assert a[0] in a && a[0] in b;
      assert b[0] in a;
      assert a[0] == b[0];
      AscendingTail(a, b);
      AscendingUnique(a[1..], b[1..]);
    }
  }

  lemma AscendingTail(a: seq<U16>, b: seq<U16>)
    requires Ascending(a) && Ascending(b) && |a| > 0 && |b| > 0 && a[0] == b[0] && forall id :: id in a <==> id in b
    ensures Ascending(a[1..]) && Ascending(b[1..]) && forall id :: id in a[1..] <==> id in b[1..]
  {
    forall id: U16
      ensures id in a[1..] <==> id in b[1..]
    {
      TailMembers(a, id);
      TailMembers(b, id);
    }
  }

  lemma TailMembers(a: seq<U16>, id: U16)
    requires Ascending(a) && |a| > 0
    ensures id in a[1..] <==> id in a && id != a[0]
  {
    assert a == [a[0]] + a[1..];
    assert forall i :: 0 <= i < |a[1..]| ==> a[1..][i] == a[i + 1];
  }

  /** The gateway's scalar body for a dictionary of values. */
  ghost function EncodeScalarBody(values: map<U16, Float32>): seq<Byte>
    requires |values| < 256
  {
    var ids := Sorted(values.Keys);
    ScalarBody(ids, seq(|ids|, i requires 0 <= i < |ids| => values[ids[i]]))
  }

  /** The dictionary of the scalars sent. */
  function Dictionary(scalars: seq<Scalar>): map<U16, Float32> { StoreScalars(map[], Ids(scalars), Values(scalars)) }

  lemma DictionaryKeys(scalars: seq<Scalar>, id: U16)
    requires Ascending(Ids(scalars))
    ensures DistinctScalars(scalars)
    ensures id in Ids(scalars) <==> id in Dictionary(scalars)
  {
    hide StoreScalars;
    var ids := Ids(scalars);
    forall i, j | 0 <= i < j < |scalars|
      ensures scalars[i].id != scalars[j].id
    {
      assert ids[i] < ids[j];
    }
    ScalarsStored(scalars);
    if id in ids {
      var i :| 0 <= i < |ids| && ids[i] == id;
      assert scalars[i].id == id;
    }
    if id in Dictionary(scalars) {
      var i :| 0 <= i < |scalars| && scalars[i].id == id;
      assert ids[i] == id;
    }
  }

  lemma SortedIsUnique(keys: set<U16>, ids: seq<U16>)
    requires Ascending(ids) && forall id :: id in ids <==> id in keys
    ensures Sorted(keys) == ids
  {
    AscendingUnique(Sorted(keys), ids);
  }

  /** When the firmware lists its scalars in ascending id order, its scalar body is the gateway's. */
  lemma AscendingScalarsMatch(scalars: seq<Scalar>)
    requires |scalars| <= 0xFF && Ascending(Ids(scalars))
    ensures |Dictionary(scalars)| == |scalars|
    ensures EncodeScalarBody(Dictionary(scalars)) == ScalarBody(Ids(scalars), Values(scalars))
  {
    hide ScalarBody, Dictionary, Ascending, Sorted;
    var m, ids := Dictionary(scalars), Ids(scalars);
    forall id: U16
      ensures id in ids <==> id in m.Keys
    {
      DictionaryKeys(scalars, id);
    }
    SortedIsUnique(m.Keys, ids);
    assert |m| == |m.Keys| == |ids|;
    DictionaryValues(scalars);
    assert seq(|ids|, i requires 0 <= i < |ids| => m[ids[i]]) == Values(scalars);
  }

  lemma DictionaryValues(scalars: seq<Scalar>)
    requires Ascending(Ids(scalars))
    ensures forall i :: 0 <= i < |scalars| ==> Ids(scalars)[i] in Dictionary(scalars) && Dictionary(scalars)[Ids(scalars)[i]] == scalars[i].value
  {
    hide StoreScalars;
    DictionaryKeys(scalars, 0);
    ScalarsStored(scalars);
  }

  /** Byte for byte, the firmware's frame is the one the gateway's encoder makes of the same channels and
      of the dictionary of the same scalars, when the firmware lists them in ascending id order. */
  lemma BytesMatchGateway(channels: seq<Channel>, scalars: seq<Scalar>)
    requires CountsFit(channels) && LengthsFit(channels) && NumSections(channels, scalars) <= 0xFF
    requires 0 < |scalars| <= 0xFF && Ascending(Ids(scalars))
    ensures |Dictionary(scalars)| == |scalars|
    ensures EncodeFrame(SpectrumSections(channels)
                        + [Section(SOURCE_SATELLITE, CHANNEL_PERF, KIND_SCALAR_SET, EncodeScalarBody(Dictionary(scalars)))])
         == Some(FrameBytes(channels, scalars))
  {
    hide Dictionary, EncodeFrame, FrameBytes, SpectrumSections, ScalarBody, EncodeScalarBody;
    AscendingScalarsMatch(scalars);
    BuilderMatchesEncoder(channels, scalars);
  }
}
