/** The gateway's telemetry codec: section bodies, the frame encoder, and the decoder with its
    compositional meaning. */
module TelemetryFrame {
  import opened IntMath
  import opened TelemetryWire
  import opened Wrappers

  // ----- Decoded values

  datatype ChannelSpectrum = ChannelSpectrum(fs: Float32, fftSize: U16, bins: seq<Float32>)

  datatype TimeSeries = TimeSeries(fs: Float32, samples: seq<Float32>)

  datatype DecodedFrame = DecodedFrame(bins: map<string, seq<Float32>>, spectra: map<string, ChannelSpectrum>,
                                       scalars: map<U16, Float32>, timeSeries: map<Byte, TimeSeries>,
                                       unknownSections: nat)

  const EMPTY := DecodedFrame(map[], map[], map[], map[], 0)

  const CHANNEL_NAMES := ["mic", "accel", "accel_x_raw", "accel_y_raw", "accel_z_raw", "mic_raw", "accel_x", "accel_y",
                          "accel_z", "accel_x_envelope", "accel_y_envelope", "accel_z_envelope"]

  predicate Known(id: Byte) { id < |CHANNEL_NAMES| }

  function ChannelName(id: Byte): string
    requires Known(id)
  {
    CHANNEL_NAMES[id]
  }

  // ----- Encoding

  function SpectrumBody(fs: Float32, fftSize: U16, bins: seq<Float32>): (b: seq<Byte>)
    requires |bins| < 65536
    ensures |b| == 8 + 4 * |bins|
  {
    PackF32(fs) + PackU16(fftSize) + PackU16(|bins|) + PackF32s(bins)
  }

  function ScalarBody(ids: seq<U16>, values: seq<Float32>): (b: seq<Byte>)
    requires |ids| == |values| < 256
    ensures |b| == 1 + 6 * |ids|
  {
    [|ids|] + PackU16s(ids) + PackF32s(values)
  }

  function TimeSeriesBody(fs: Float32, samples: seq<Float32>): (b: seq<Byte>)
    requires |samples| < 65536
    ensures |b| == 6 + 4 * |samples|
  {
    PackF32(fs) + PackU16(|samples|) + PackF32s(samples)
  }

  lemma EncodedSectionReads(s: Section)
    ensures Fits(s) ==> SectionAt(PackSection(s), 0) == (true, s)
  {
    if Fits(s) {
      SectionRoundTrip([], s, []);
      assert [] + PackSection(s) + [] == PackSection(s);
    }
  }

  /** The section encoder rejects a body whose length exceeds the 16-bit field. */
  function EncodeSection(s: Section): (r: Option<seq<Byte>>)
    ensures r.Some? <==> |s.body| <= 0xFFFF
    ensures r.Some? ==> SectionAt(r.value, 0) == (true, s)
  {
    EncodedSectionReads(s);
    if |s.body| > 0xFFFF then None else Some(PackSection(s))
  }

  /** The frame encoder rejects more sections than the 8-bit count can hold. */
  function EncodeFrame(sections: seq<Section>): (r: Option<seq<Byte>>)
    ensures r.Some? <==> |sections| <= 0xFF && forall i :: 0 <= i < |sections| ==> Fits(sections[i])
  {
    if |sections| > 0xFF || !(forall i :: 0 <= i < |sections| ==> Fits(sections[i])) then None
    else Some([|sections|] + PackSections(sections))
  }

  // ----- Decoding one section

  function MergeSpectrum(acc: DecodedFrame, channel: Byte, body: seq<Byte>): Result<DecodedFrame> {
    if |body| < 8 then Malformed
    else
      var fs, fftSize, count := ReadF32(body, 0), ReadU16(body, 4), ReadU16(body, 6);
      if |body| < 8 + count * 4 then Malformed
      else
        var bins := ReadF32s(body, 8, count);
        if !Known(channel) then Ok(acc.(unknownSections := acc.unknownSections + 1))
        else
          var name := ChannelName(channel);
          Ok(acc.(spectra := acc.spectra[name := ChannelSpectrum(fs, fftSize, bins)],
                  bins := if count > 0 then acc.bins[name := bins] else acc.bins))
  }

  /** Stores the scalars in wire order, so that the last of equal ids wins. */
  function StoreScalars(m: map<U16, Float32>, ids: seq<U16>, values: seq<Float32>): map<U16, Float32>
    requires |ids| == |values|
  {
    if ids == [] then m
    else StoreScalars(m, ids[..|ids| - 1], values[..|ids| - 1])[ids[|ids| - 1] := values[|ids| - 1]]
  }

  function MergeScalarSet(acc: DecodedFrame, body: seq<Byte>): Result<DecodedFrame> {
    if |body| < 1 then Malformed
    else
      var count: nat := body[0];
      if |body| < 1 + count * 2 + count * 4 then Malformed
      else Ok(acc.(scalars := StoreScalars(acc.scalars, ReadU16s(body, 1, count), ReadF32s(body, 1 + count * 2, count))))
  }

  function MergeTimeSeries(acc: DecodedFrame, channel: Byte, body: seq<Byte>): Result<DecodedFrame> {
    if |body| < 6 then Malformed
    else
      var fs, count := ReadF32(body, 0), ReadU16(body, 4);
      if |body| < 6 + count * 4 then Malformed
      else Ok(acc.(timeSeries := acc.timeSeries[channel := TimeSeries(fs, ReadF32s(body, 6, count))]))
  }

  predicate KnownKind(kind: Byte) { kind == KIND_SPECTRUM || kind == KIND_SCALAR_SET || kind == KIND_TIME_SERIES }

  /** What one section adds to a frame. */
  function Merge(acc: DecodedFrame, s: Section): Result<DecodedFrame> {
    if s.kind == KIND_SPECTRUM then MergeSpectrum(acc, s.channel, s.body)
    else if s.kind == KIND_SCALAR_SET then MergeScalarSet(acc, s.body)
    else if s.kind == KIND_TIME_SERIES then MergeTimeSeries(acc, s.channel, s.body)
    else Ok(acc.(unknownSections := acc.unknownSections + 1))
  }

  /** A section is malformed exactly when its body is shorter than its own count says. */
  lemma MalformedExactly(acc: DecodedFrame, s: Section)
    ensures Merge(acc, s).Malformed? <==>
              (s.kind == 1 && (|s.body| < 8 || |s.body| < 8 + 4 * (s.body[6] as int + 256 * s.body[7] as int)))
              || (s.kind == 2 && (|s.body| < 6 || |s.body| < 6 + 4 * (s.body[4] as int + 256 * s.body[5] as int)))
              || (s.kind == 3 && (|s.body| < 1 || |s.body| < 1 + 6 * s.body[0] as int))
  {
  }

  function MergeAll(acc: DecodedFrame, ss: seq<Section>): Result<DecodedFrame>
    decreases |ss|
  {
    if ss == [] then Ok(acc) else
      var r := Merge(acc, ss[0]);
      if r.Malformed? then Malformed else MergeAll(r.value, ss[1..])
  }

  // ----- Decoding a frame

  /** The meaning of the decoder's loop: `n` sections from offset `off`. */
  function DecodeFrom(payload: seq<Byte>, off: nat, n: nat, acc: DecodedFrame): Result<DecodedFrame>
    requires off <= |payload|
    decreases n
  {
    if n == 0 then Ok(acc) else
      var (fits, s) := SectionAt(payload, off);
      if !fits then Malformed else
        var r := Merge(acc, s);
        if r.Malformed? then Malformed else DecodeFrom(payload, off + 5 + |s.body|, n - 1, r.value)
  }

  function Decode(payload: seq<Byte>): Result<DecodedFrame> {
    if |payload| < 1 then Malformed else DecodeFrom(payload, 1, payload[0], EMPTY)
  }

  method DecodeScalarSet(acc: DecodedFrame, body: seq<Byte>) returns (r: Result<DecodedFrame>)
    ensures r == MergeScalarSet(acc, body)
  {
    if |body| < 1 {
      return Malformed;
    }
    var count: nat := body[0];
    var need := 1 + count * 2 + count * 4;
    if |body| < need {
      return Malformed;
    }
    var ids := ReadU16s(body, 1, count);
    var values := ReadF32s(body, 1 + count * 2, count);
    var scalars := acc.scalars;
    for i := 0 to count
      invariant scalars == StoreScalars(acc.scalars, ids[..i], values[..i])
    {
      assert ids[..i + 1][..i] == ids[..i] && values[..i + 1][..i] == values[..i];
      scalars := scalars[ids[i] := values[i]];
    }
    assert ids[..count] == ids && values[..count] == values;
    r := Ok(acc.(scalars := scalars));
  }

  /** Parses the sections in a loop, skipping those of unknown kind by their length. Every payload is
      either decoded or rejected as malformed. */
  method DecodeFrame(payload: seq<Byte>) returns (r: Result<DecodedFrame>)
    ensures r == Decode(payload)
  {
    hide SectionAt, MergeSpectrum, MergeScalarSet, MergeTimeSeries;
    if |payload| < 1 {
      return Malformed;
    }
    var n: nat := payload[0];
    var off: nat := 1;
    var out := EMPTY;
    for i := 0 to n
      invariant off <= |payload|
      invariant Decode(payload) == DecodeFrom(payload, off, n - i, out)
    {
      var (fits, s) := SectionAt(payload, off);
      if !fits {
        return Malformed;
      }
      off := off + 5 + |s.body|;
      var merged;
      if s.kind == KIND_SPECTRUM {
        merged := MergeSpectrum(out, s.channel, s.body);
      } else if s.kind == KIND_SCALAR_SET {
        merged := DecodeScalarSet(out, s.body);
      } else if s.kind == KIND_TIME_SERIES {
        merged := MergeTimeSeries(out, s.channel, s.body);
      } else {
        merged := Ok(out.(unknownSections := out.unknownSections + 1));
      }
      if merged.Malformed? {
        return Malformed;
      }
      out := merged.value;
    }
    r := Ok(out);
  }

  // ----- The decoder is compositional

  /** The decoder's loop merges well-formed sections left to right and goes on behind them. */
  lemma {:induction false} DecodePrefix(a: seq<Byte>, ss: seq<Section>, c: seq<Byte>, more: nat, acc: DecodedFrame)
    requires forall i :: 0 <= i < |ss| ==> Fits(ss[i])
    ensures var r := MergeAll(acc, ss);
            DecodeFrom(a + PackSections(ss) + c, |a|, |ss| + more, acc)
            == if r.Ok? then DecodeFrom(a + PackSections(ss) + c, |a + PackSections(ss)|, more, r.value) else Malformed
    decreases |ss|
  {
    hide SectionAt, Merge;
    if ss == [] {
      assert a + [] == a;
    } else {
      var s, rest := ss[0], ss[1..];
      var payload := a + PackSections(ss) + c;
      assert payload == a + PackSection(s) + (PackSections(rest) + c);
      SectionRoundTrip(a, s, PackSections(rest) + c);
      var r := Merge(acc, s);
      if r.Ok? {
        assert payload == (a + PackSection(s)) + PackSections(rest) + c;
        DecodePrefix(a + PackSection(s), rest, c, more, r.value);
      }
    }
  }

  /** Decoding an encoded frame is merging its sections left to right. */
  lemma FrameRoundTrip(ss: seq<Section>)
    ensures EncodeFrame(ss).Some? ==> Decode(EncodeFrame(ss).value) == MergeAll(EMPTY, ss)
  {
    hide MergeAll;
    if EncodeFrame(ss).Some? {
      DecodePrefix([|ss|], ss, [], 0, EMPTY);
      assert [|ss|] + PackSections(ss) + [] == EncodeFrame(ss).value;
    }
  }

  /** The second frame laid over the first. */
  function Overlay(f: DecodedFrame, g: DecodedFrame): DecodedFrame {
    DecodedFrame(f.bins + g.bins, f.spectra + g.spectra, f.scalars + g.scalars, f.timeSeries + g.timeSeries,
                 f.unknownSections + g.unknownSections)
  }

  lemma {:induction false} StoreOverlays(m: map<U16, Float32>, ids: seq<U16>, values: seq<Float32>)
    requires |ids| == |values|
    ensures StoreScalars(m, ids, values) == m + StoreScalars(map[], ids, values)
  {
    if ids != [] {
      StoreOverlays(m, ids[..|ids| - 1], values[..|ids| - 1]);
    }
  }

  lemma MapOverlay<K, V>(a: map<K, V>, b: map<K, V>, c: map<K, V>)
    ensures (a + b) + c == a + (b + c)
    ensures a + map[] == a
  {
  }

  lemma OverlayLaws(f: DecodedFrame, g: DecodedFrame, h: DecodedFrame)
    ensures Overlay(Overlay(f, g), h) == Overlay(f, Overlay(g, h))
    ensures Overlay(f, EMPTY) == f
  {
    MapOverlay(f.bins, g.bins, h.bins);
    MapOverlay(f.spectra, g.spectra, h.spectra);
    MapOverlay(f.scalars, g.scalars, h.scalars);
    MapOverlay(f.timeSeries, g.timeSeries, h.timeSeries);
  }

  lemma OverlayUnknown(f: DecodedFrame, g: DecodedFrame)
    ensures Overlay(Overlay(f, EMPTY.(unknownSections := 1)), g)
         == Overlay(f, g).(unknownSections := Overlay(f, g).unknownSections + 1)
  {
    assert f.bins + map[] == f.bins && f.spectra + map[] == f.spectra;
    assert f.scalars + map[] == f.scalars && f.timeSeries + map[] == f.timeSeries;
  }

  lemma MapUpdate<K, V>(m: map<K, V>, k: K, v: V)
    ensures m[k := v] == m + map[][k := v]
    ensures m + map[] == m
  {
  }

  lemma SpectrumOverlays(acc: DecodedFrame, channel: Byte, body: seq<Byte>)
    ensures MergeSpectrum(acc, channel, body).Ok? <==> MergeSpectrum(EMPTY, channel, body).Ok?
    ensures MergeSpectrum(acc, channel, body).Ok? ==>
              MergeSpectrum(acc, channel, body).value == Overlay(acc, MergeSpectrum(EMPTY, channel, body).value)
  {
    hide ReadF32s;
    if MergeSpectrum(acc, channel, body).Ok? {
      MapUpdate(acc.scalars, 0, ReadF32(body, 0));
      MapUpdate(acc.timeSeries, 0, TimeSeries(ReadF32(body, 0), []));
      var name, bins := if Known(channel) then ChannelName(channel) else "", ReadF32s(body, 8, ReadU16(body, 6));
      MapUpdate(acc.spectra, name, ChannelSpectrum(ReadF32(body, 0), ReadU16(body, 4), bins));
      MapUpdate(acc.bins, name, bins);
    }
  }

  lemma ScalarSetOverlays(acc: DecodedFrame, body: seq<Byte>)
    ensures MergeScalarSet(acc, body).Ok? <==> MergeScalarSet(EMPTY, body).Ok?
    ensures MergeScalarSet(acc, body).Ok? ==>
              MergeScalarSet(acc, body).value == Overlay(acc, MergeScalarSet(EMPTY, body).value)
  {
    if MergeScalarSet(acc, body).Ok? {
      var count: nat := body[0];
      StoreOverlays(acc.scalars, ReadU16s(body, 1, count), ReadF32s(body, 1 + count * 2, count));
      MapUpdate(acc.spectra, "", ChannelSpectrum(Float32(0, 0, 0, 0), 0, []));
      MapUpdate(acc.bins, "", []);
      MapUpdate(acc.timeSeries, 0, TimeSeries(Float32(0, 0, 0, 0), []));
    }
  }

  lemma TimeSeriesOverlays(acc: DecodedFrame, channel: Byte, body: seq<Byte>)
    ensures MergeTimeSeries(acc, channel, body).Ok? <==> MergeTimeSeries(EMPTY, channel, body).Ok?
    ensures MergeTimeSeries(acc, channel, body).Ok? ==>
              MergeTimeSeries(acc, channel, body).value == Overlay(acc, MergeTimeSeries(EMPTY, channel, body).value)
  {
    hide ReadF32s;
    if MergeTimeSeries(acc, channel, body).Ok? {
      MapUpdate(acc.scalars, 0, ReadF32(body, 0));
      MapUpdate(acc.spectra, "", ChannelSpectrum(Float32(0, 0, 0, 0), 0, []));
      MapUpdate(acc.bins, "", []);
      MapUpdate(acc.timeSeries, channel, TimeSeries(ReadF32(body, 0), ReadF32s(body, 6, ReadU16(body, 4))));
    }
  }

  lemma MergeOverlays(acc: DecodedFrame, s: Section)
    ensures Merge(acc, s).Ok? <==> Merge(EMPTY, s).Ok?
    ensures Merge(acc, s).Ok? ==> Merge(acc, s).value == Overlay(acc, Merge(EMPTY, s).value)
  {
    hide MergeSpectrum, MergeScalarSet, MergeTimeSeries;
    SpectrumOverlays(acc, s.channel, s.body);
    ScalarSetOverlays(acc, s.body);
    TimeSeriesOverlays(acc, s.channel, s.body);
    OverlayUnknown(acc, EMPTY);
    OverlayLaws(acc, EMPTY, EMPTY);
    OverlayLaws(acc, EMPTY.(unknownSections := 1), EMPTY);
  }

  /** Merging a list onto a frame is overlaying what the list means on its own. */
  lemma {:induction false} MergeAllOverlays(acc: DecodedFrame, ss: seq<Section>)
    ensures MergeAll(acc, ss).Ok? <==> MergeAll(EMPTY, ss).Ok?
    ensures MergeAll(acc, ss).Ok? ==> MergeAll(acc, ss).value == Overlay(acc, MergeAll(EMPTY, ss).value)
    decreases |ss|
  {
    hide Merge, Overlay;
    if ss == [] {
      OverlayLaws(acc, EMPTY, EMPTY);
    } else {
      MergeOverlays(acc, ss[0]);
      if Merge(acc, ss[0]).Ok? {
        var first := Merge(EMPTY, ss[0]).value;
        MergeAllOverlays(Merge(acc, ss[0]).value, ss[1..]);
        MergeAllOverlays(first, ss[1..]);
        if MergeAll(EMPTY, ss[1..]).Ok? {
          OverlayLaws(acc, first, MergeAll(EMPTY, ss[1..]).value);
        }
      }
    }
  }

  lemma {:induction false} MergeAllSplits(acc: DecodedFrame, a: seq<Section>, b: seq<Section>)
    ensures MergeAll(acc, a + b) == (if MergeAll(acc, a).Ok? then MergeAll(MergeAll(acc, a).value, b) else Malformed)
    decreases |a|
  {
    hide Merge;
    if a == [] {
      assert a + b == b;
    } else {
      assert (a + b)[1..] == a[1..] + b;
      if Merge(acc, a[0]).Ok? {
        MergeAllSplits(Merge(acc, a[0]).value, a[1..], b);
      }
    }
  }

  /** Sections in two parts merge exactly when both parts do, to the second laid over the first. */
  lemma MergesCompose(a: seq<Section>, b: seq<Section>)
    ensures MergeAll(EMPTY, a + b).Ok? <==> MergeAll(EMPTY, a).Ok? && MergeAll(EMPTY, b).Ok?
    ensures MergeAll(EMPTY, a + b).Ok? ==>
              MergeAll(EMPTY, a + b).value == Overlay(MergeAll(EMPTY, a).value, MergeAll(EMPTY, b).value)
  {
    hide MergeAll;
    MergeAllSplits(EMPTY, a, b);
    if MergeAll(EMPTY, a).Ok? {
      MergeAllOverlays(MergeAll(EMPTY, a).value, b);
    }
  }

  /** Sections of a kind the decoder does not know, inserted anywhere, change nothing but the count of
      unknown sections; in particular they neither cause nor hide a malformed frame. */
  lemma MergeSkipsUnknown(a: seq<Section>, u: Section, b: seq<Section>)
    requires !KnownKind(u.kind)
    ensures MergeAll(EMPTY, a + [u] + b).Ok? <==> MergeAll(EMPTY, a + b).Ok?
    ensures MergeAll(EMPTY, a + [u] + b).Ok? ==>
              var plain := MergeAll(EMPTY, a + b).value;
              MergeAll(EMPTY, a + [u] + b).value == plain.(unknownSections := plain.unknownSections + 1)
  {
    hide MergeAll, Overlay;
    SingleUnknown(u);
    MergesCompose(a, b);
    MergesCompose(a, [u]);
    MergesCompose(a + [u], b);
    if MergeAll(EMPTY, a + b).Ok? {
      OverlayUnknown(MergeAll(EMPTY, a).value, MergeAll(EMPTY, b).value);
    }
  }

  lemma SingleUnknown(u: Section)
    requires !KnownKind(u.kind)
    ensures MergeAll(EMPTY, [u]) == Ok(EMPTY.(unknownSections := 1))
  {
    assert [u][1..] == [];
  }

  // ----- The decoder on payload bytes

  predicate AllFit(ss: seq<Section>) { |ss| <= 0xFF && forall i :: 0 <= i < |ss| ==> Fits(ss[i]) }

  /** A payload: the count byte, the packed sections, and whatever follows them. */
  function Payload(ss: seq<Section>, tail: seq<Byte>): seq<Byte>
    requires AllFit(ss)
  {
    [|ss|] + PackSections(ss) + tail
  }

  /** The decoder merges a payload's sections and ignores what follows them. */
  lemma PayloadDecodes(ss: seq<Section>, tail: seq<Byte>)
    requires AllFit(ss)
    ensures Decode(Payload(ss, tail)) == MergeAll(EMPTY, ss)
  {
    hide MergeAll;
    DecodePrefix([|ss|], ss, tail, 0, EMPTY);
  }

  /** What the section reader accepts is the section's packed form. */
  lemma SectionReadIsPacked(s: seq<Byte>, off: nat)
    requires off <= |s| && SectionAt(s, off).0
    ensures var sec := SectionAt(s, off).1;
            s[off..off + 5 + |sec.body|] == PackSection(sec)
  {
    var sec, length := SectionAt(s, off).1, ReadU16(s, off + 3);
    var lo, hi := s[off + 3] as int, s[off + 4] as int;
    assert length == lo + 256 * hi && length % 256 == lo && length / 256 == hi;
    assert PackU16(length) == [s[off + 3], s[off + 4]];
    assert s[off..off + 5] == Header(sec.source, sec.channel, sec.kind, length);
    assert s[off..off + 5 + length] == s[off..off + 5] + s[off + 5..off + 5 + length];
  }

  /** The sections behind a successful decoding. */
  lemma {:induction false} SectionsBehind(payload: seq<Byte>, off: nat, n: nat, acc: DecodedFrame)
    returns (ss: seq<Section>, tail: seq<Byte>)
    requires off <= |payload| && DecodeFrom(payload, off, n, acc).Ok?
    ensures |ss| == n && forall i :: 0 <= i < n ==> Fits(ss[i])
    ensures payload[off..] == PackSections(ss) + tail
    ensures MergeAll(acc, ss) == DecodeFrom(payload, off, n, acc)
    decreases n
  {
    hide SectionAt, Merge;
    if n == 0 {
      ss, tail := [], payload[off..];
    } else {
      var s := SectionAt(payload, off).1;
      var next := off + 5 + |s.body|;
      var rest;
      rest, tail := SectionsBehind(payload, next, n - 1, Merge(acc, s).value);
      ss := [s] + rest;
      SectionReadIsPacked(payload, off);
      assert payload[off..] == payload[off..next] + payload[next..];
      assert ss[1..] == rest;
    }
  }

  /** The decoder accepts exactly the payloads that consist of well-formed sections that merge, and any tail: a
      payload decodes to a frame if and only if its sections merge to it. */
  lemma DecodesExactly(payload: seq<Byte>, f: DecodedFrame)
    ensures Decode(payload) == Ok(f) <==>
              exists ss, tail :: AllFit(ss) && payload == Payload(ss, tail) && MergeAll(EMPTY, ss) == Ok(f)
  {
    hide MergeAll, DecodeFrom;
    if Decode(payload) == Ok(f) {
      var ss, tail := SectionsBehind(payload, 1, payload[0], EMPTY);
      assert payload == [payload[0]] + payload[1..];
      assert AllFit(ss) && payload == Payload(ss, tail);
    }
    forall ss, tail | AllFit(ss) && payload == Payload(ss, tail) && MergeAll(EMPTY, ss) == Ok(f)
      ensures Decode(payload) == Ok(f)
    {
      PayloadDecodes(ss, tail);
    }
  }

  /** A payload in two parts decodes exactly when both parts do, to the second laid over the first. */
  lemma DecodeComposes(a: seq<Section>, b: seq<Section>, tail: seq<Byte>)
    requires AllFit(a) && AllFit(b) && AllFit(a + b)
    ensures var whole, first, second := Decode(Payload(a + b, tail)), Decode(Payload(a, [])), Decode(Payload(b, []));
            && (whole.Ok? <==> first.Ok? && second.Ok?)
            && (whole.Ok? ==> whole.value == Overlay(first.value, second.value))
  {
    hide MergeAll, Decode, Overlay;
    PayloadDecodes(a + b, tail);
    PayloadDecodes(a, []);
    PayloadDecodes(b, []);
    MergesCompose(a, b);
  }

  /** A section of a kind the decoder does not know, inserted anywhere into a payload, changes nothing but the
      count of unknown sections; in particular it neither causes nor hides a malformed frame. */
  lemma UnknownKindsAreSkipped(a: seq<Section>, u: Section, b: seq<Section>, tail: seq<Byte>)
    requires !KnownKind(u.kind) && AllFit(a + b) && AllFit(a + [u] + b)
    ensures var with, without := Decode(Payload(a + [u] + b, tail)), Decode(Payload(a + b, tail));
            && (with.Ok? <==> without.Ok?)
            && (with.Ok? ==> with.value == without.value.(unknownSections := without.value.unknownSections + 1))
  {
    hide MergeAll, Decode;
    PayloadDecodes(a + [u] + b, tail);
    PayloadDecodes(a + b, tail);
    MergeSkipsUnknown(a, u, b);
  }
}
