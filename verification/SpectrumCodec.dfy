/** The firmware's frame builder, and its agreement with the gateway's codec. */
module SpectrumCodec {
  import opened IntMath
  import opened TelemetryWire
  import opened TelemetryFrame

  /** A spectrum to send; `bins` has the channel's bin_count entries. */
  datatype Channel = Channel(id: Byte, fs: Float32, fftSize: U16, bins: seq<Float32>)

  datatype Scalar = Scalar(id: U16, value: Float32)

  predicate CountsFit(channels: seq<Channel>) { forall i :: 0 <= i < |channels| ==> |channels[i].bins| < 65536 }

  function NumSections(channels: seq<Channel>, scalars: seq<Scalar>): nat {
    |channels| + if scalars == [] then 0 else 1
  }

  /** The size the builder computes before it writes anything. */
  function ChannelsSize(channels: seq<Channel>): nat {
    if channels == [] then 0 else ChannelsSize(channels[..|channels| - 1]) + (13 + 4 * |channels[|channels| - 1].bins|)
  }

  function FrameSize(channels: seq<Channel>, scalars: seq<Scalar>): nat {
    1 + ChannelsSize(channels) + if scalars == [] then 0 else 6 + 6 * |scalars|
  }

  predicate Accepted(channels: seq<Channel>, scalars: seq<Scalar>, room: nat) {
    NumSections(channels, scalars) <= 0xFF && |scalars| <= 0xFF && FrameSize(channels, scalars) <= room
  }

  /** The section length is truncated to 16 bits. */
  function ChannelBytes(c: Channel): (b: seq<Byte>)
    requires |c.bins| < 65536
    ensures |b| == 13 + 4 * |c.bins|
  {
    Header(SOURCE_SATELLITE, c.id, KIND_SPECTRUM, (8 + 4 * |c.bins|) % 65536) + SpectrumBody(c.fs, c.fftSize, c.bins)
  }

  function ChannelsBytes(channels: seq<Channel>): (b: seq<Byte>)
    requires CountsFit(channels)
    ensures |b| == ChannelsSize(channels)
  {
    if channels == [] then [] else ChannelsBytes(channels[..|channels| - 1]) + ChannelBytes(channels[|channels| - 1])
  }

  function Ids(scalars: seq<Scalar>): (r: seq<U16>)
    ensures |r| == |scalars| && forall i :: 0 <= i < |r| ==> r[i] == scalars[i].id
  {
    seq(|scalars|, i requires 0 <= i < |scalars| => scalars[i].id)
  }

  function Values(scalars: seq<Scalar>): (r: seq<Float32>)
    ensures |r| == |scalars| && forall i :: 0 <= i < |r| ==> r[i] == scalars[i].value
  {
    seq(|scalars|, i requires 0 <= i < |scalars| => scalars[i].value)
  }

  function ScalarsBytes(scalars: seq<Scalar>): (b: seq<Byte>)
    requires |scalars| <= 0xFF
    ensures |b| == if scalars == [] then 0 else 6 + 6 * |scalars|
  {
    if scalars == [] then [] else
      Header(SOURCE_SATELLITE, CHANNEL_PERF, KIND_SCALAR_SET, 1 + 6 * |scalars|) + ScalarBody(Ids(scalars), Values(scalars))
  }

  function FrameBytes(channels: seq<Channel>, scalars: seq<Scalar>): (b: seq<Byte>)
    requires CountsFit(channels) && NumSections(channels, scalars) <= 0xFF && |scalars| <= 0xFF
    ensures |b| == FrameSize(channels, scalars)
  {
    [NumSections(channels, scalars)] + ChannelsBytes(channels) + ScalarsBytes(scalars)
  }

  lemma SinglePacks(f: Float32, v: U16)
    ensures PackF32s([f]) == [f.b0, f.b1, f.b2, f.b3] && PackU16s([v]) == [v % 256, v / 256]
  {
    assert [f][..0] == [] && [v][..0] == [];
    assert PackF32s([]) == [] && PackU16s([]) == [];
  }

  lemma SmallChannel(c: Channel)
    requires |c.bins| == 1
    ensures ChannelsBytes([c]) == [1, c.id, 1, 12, 0] + [c.fs.b0, c.fs.b1, c.fs.b2, c.fs.b3]
                                  + [c.fftSize % 256, c.fftSize / 256, 1, 0]
                                  + [c.bins[0].b0, c.bins[0].b1, c.bins[0].b2, c.bins[0].b3]
  {
    hide PackF32s;
    SinglePacks(c.bins[0], 0);
    assert c.bins == [c.bins[0]];
    assert [c][..0] == [] && ChannelsBytes([]) == [];
  }

  lemma SmallScalars(s: Scalar)
    ensures ScalarsBytes([s])
         == [1, 255, 3, 7, 0] + [1] + [s.id % 256, s.id / 256] + [s.value.b0, s.value.b1, s.value.b2, s.value.b3]
  {
    hide PackF32s, PackU16s;
    SinglePacks(s.value, s.id);
    assert Ids([s]) == [s.id] && Values([s]) == [s.value];
  }

  /** A frame byte by byte: one channel with one bin, one scalar. */
  lemma SmallFrame(c: Channel, s: Scalar)
    requires |c.bins| == 1
    ensures FrameBytes([c], [s])
         == [2]
            + ([1, c.id, 1, 12, 0] + [c.fs.b0, c.fs.b1, c.fs.b2, c.fs.b3] + [c.fftSize % 256, c.fftSize / 256, 1, 0]
               + [c.bins[0].b0, c.bins[0].b1, c.bins[0].b2, c.bins[0].b3])
            + ([1, 255, 3, 7, 0] + [1] + [s.id % 256, s.id / 256] + [s.value.b0, s.value.b1, s.value.b2, s.value.b3])
  {
    hide ChannelsBytes, ScalarsBytes;
    SmallChannel(c);
    SmallScalars(s);
  }

  // ----- Writing into the caller's buffer

  /** `buf` is what `was` becomes when `bytes` are written from its start. */
  predicate Wrote(buf: seq<Byte>, was: seq<Byte>, bytes: seq<Byte>) {
    |bytes| <= |was| && buf == bytes + was[|bytes|..]
  }

  lemma WroteMore(buf: seq<Byte>, was: seq<Byte>, bytes: seq<Byte>, more: seq<Byte>, buf': seq<Byte>)
    requires Wrote(buf, was, bytes) && |bytes| + |more| <= |was|
    requires buf' == buf[..|bytes|] + more + buf[|bytes| + |more|..]
    ensures Wrote(buf', was, bytes + more)
  {
  }

  /** The appenders: each writes its value's bytes at `pos` and advances it. */
  method Put(buf: array<Byte>, pos: nat, more: seq<Byte>, ghost was: seq<Byte>, ghost bytes: seq<Byte>) returns (next: nat)
    requires Wrote(buf[..], was, bytes) && pos == |bytes| && pos + |more| <= buf.Length
    modifies buf
    ensures Wrote(buf[..], was, bytes + more) && next == pos + |more|
  {
    ghost var before := buf[..];
    forall i | 0 <= i < |more| {
      buf[pos + i] := more[i];
    }
    assert buf[..] == before[..pos] + more + before[pos + |more|..];
    WroteMore(before, was, bytes, more, buf[..]);
    next := pos + |more|;
  }

  method PutChannel(buf: array<Byte>, at: nat, c: Channel, ghost was: seq<Byte>, ghost bytes: seq<Byte>) returns (pos: nat)
    requires |c.bins| < 65536
    requires Wrote(buf[..], was, bytes) && at == |bytes| && at + 13 + 4 * |c.bins| <= buf.Length
    modifies buf
    ensures Wrote(buf[..], was, bytes + ChannelBytes(c)) && pos == at + 13 + 4 * |c.bins|
  {
    hide Wrote, PackU16, PackF32, PackF32s, ChannelBytes;
    var sectionLen := (8 + 4 * |c.bins|) % 65536;
    var ids := [SOURCE_SATELLITE] + [c.id] + [KIND_SPECTRUM];
    pos := Put(buf, at, ids, was, bytes);
    pos := Put(buf, pos, PackU16(sectionLen), was, bytes + ids);
    ghost var head := bytes + ids + PackU16(sectionLen);
    pos := Put(buf, pos, PackF32(c.fs), was, head);
    pos := Put(buf, pos, PackU16(c.fftSize), was, head + PackF32(c.fs));
    pos := Put(buf, pos, PackU16(|c.bins|), was, head + PackF32(c.fs) + PackU16(c.fftSize));
    ChannelAssembled(bytes, c, ids);
    if |c.bins| > 0 {
      pos := Put(buf, pos, PackF32s(c.bins), was, head + PackF32(c.fs) + PackU16(c.fftSize) + PackU16(|c.bins|));
    }
  }

  lemma ChannelAssembled(bytes: seq<Byte>, c: Channel, ids: seq<Byte>)
    requires |c.bins| < 65536 && ids == [SOURCE_SATELLITE] + [c.id] + [KIND_SPECTRUM]
    ensures var all := bytes + ids + PackU16((8 + 4 * |c.bins|) % 65536) + PackF32(c.fs) + PackU16(c.fftSize) + PackU16(|c.bins|);
            bytes + ChannelBytes(c) == if |c.bins| > 0 then all + PackF32s(c.bins) else all
  {
    hide PackU16, PackF32;
    assert |c.bins| == 0 ==> PackF32s(c.bins) == [];
  }

  method PutIds(buf: array<Byte>, at: nat, ids: seq<U16>, ghost was: seq<Byte>, ghost bytes: seq<Byte>) returns (pos: nat)
    requires Wrote(buf[..], was, bytes) && at == |bytes| && at + 2 * |ids| <= buf.Length
    modifies buf
    ensures Wrote(buf[..], was, bytes + PackU16s(ids)) && pos == at + 2 * |ids|
  {
    hide Wrote, PackU16;
    pos := at;
    assert bytes + PackU16s([]) == bytes;
    for i := 0 to |ids|
      invariant pos == at + 2 * i
      invariant Wrote(buf[..], was, bytes + PackU16s(ids[..i]))
    {
      assert ids[..i + 1][..i] == ids[..i];
      pos := Put(buf, pos, PackU16(ids[i]), was, bytes + PackU16s(ids[..i]));
      assert bytes + PackU16s(ids[..i]) + PackU16(ids[i]) == bytes + PackU16s(ids[..i + 1]);
    }
    assert ids[..|ids|] == ids;
  }

  method PutValues(buf: array<Byte>, at: nat, fs: seq<Float32>, ghost was: seq<Byte>, ghost bytes: seq<Byte>) returns (pos: nat)
    requires Wrote(buf[..], was, bytes) && at == |bytes| && at + 4 * |fs| <= buf.Length
    modifies buf
    ensures Wrote(buf[..], was, bytes + PackF32s(fs)) && pos == at + 4 * |fs|
  {
    hide Wrote, PackF32;
    pos := at;
    assert bytes + PackF32s([]) == bytes;
    for i := 0 to |fs|
      invariant pos == at + 4 * i
      invariant Wrote(buf[..], was, bytes + PackF32s(fs[..i]))
    {
      assert fs[..i + 1][..i] == fs[..i];
      pos := Put(buf, pos, PackF32(fs[i]), was, bytes + PackF32s(fs[..i]));
      assert bytes + PackF32s(fs[..i]) + PackF32(fs[i]) == bytes + PackF32s(fs[..i + 1]);
    }
    assert fs[..|fs|] == fs;
  }

  method PutScalars(buf: array<Byte>, at: nat, scalars: seq<Scalar>, ghost was: seq<Byte>, ghost bytes: seq<Byte>)
    returns (pos: nat)
    requires 0 < |scalars| <= 0xFF
    requires Wrote(buf[..], was, bytes) && at == |bytes| && at + 6 + 6 * |scalars| <= buf.Length
    modifies buf
    ensures Wrote(buf[..], was, bytes + ScalarsBytes(scalars)) && pos == at + 6 + 6 * |scalars|
  {
    hide Wrote, PackU16s, PackF32s, Header, ScalarsBytes;
    var n := |scalars|;
    var header := Header(SOURCE_SATELLITE, CHANNEL_PERF, KIND_SCALAR_SET, 1 + 6 * n);
    ScalarsAssembled(scalars, bytes);
    pos := Put(buf, at, header, was, bytes);
    pos := Put(buf, pos, [n], was, bytes + header);
    pos := PutIds(buf, pos, Ids(scalars), was, bytes + header + [n]);
    pos := PutValues(buf, pos, Values(scalars), was, bytes + header + [n] + PackU16s(Ids(scalars)));
  }

  lemma ScalarsAssembled(scalars: seq<Scalar>, bytes: seq<Byte>)
    requires 0 < |scalars| <= 0xFF
    ensures bytes + Header(SOURCE_SATELLITE, CHANNEL_PERF, KIND_SCALAR_SET, 1 + 6 * |scalars|) + [|scalars|]
            + PackU16s(Ids(scalars)) + PackF32s(Values(scalars)) == bytes + ScalarsBytes(scalars)
  {
    hide PackU16s, PackF32s, Header;
  }

  /** Writes the frame and returns its length, which is the size computed beforehand; or writes nothing
      and returns 0 when a count exceeds its byte or the buffer is too small. */
  method BuildFrame(channels: seq<Channel>, scalars: seq<Scalar>, outBuf: array<Byte>) returns (n: nat)
    requires CountsFit(channels)
    modifies outBuf
    ensures !Accepted(channels, scalars, outBuf.Length) ==> n == 0 && outBuf[..] == old(outBuf[..])
    ensures Accepted(channels, scalars, outBuf.Length) ==>
              && n == FrameSize(channels, scalars)
              && outBuf[..] == FrameBytes(channels, scalars) + old(outBuf[..])[n..]
  {
    hide FrameBytes, FrameSize;
    var numSections := |channels| + if |scalars| > 0 then 1 else 0;
    if numSections > 0xFF || |scalars| > 0xFF {
      return 0;
    }
    var total := TotalSize(channels, scalars);
    if total > outBuf.Length {
      return 0;
    }
    n := WriteFrame(channels, scalars, numSections, outBuf);
  }

  method WriteFrame(channels: seq<Channel>, scalars: seq<Scalar>, numSections: Byte, outBuf: array<Byte>) returns (pos: nat)
    requires CountsFit(channels) && Accepted(channels, scalars, outBuf.Length)
    requires numSections == NumSections(channels, scalars)
    modifies outBuf
    ensures pos == FrameSize(channels, scalars)
    ensures outBuf[..] == FrameBytes(channels, scalars) + old(outBuf[..])[pos..]
  {
    hide ChannelsBytes, ScalarsBytes, ChannelsSize, Wrote, FrameBytes;
    ghost var was := outBuf[..];
    NothingWritten(was);
    pos := Put(outBuf, 0, [numSections], was, []);
    ghost var head: seq<Byte> := [] + [numSections];
    pos := PutChannels(outBuf, pos, channels, was, head);
    if |scalars| > 0 {
      pos := PutScalars(outBuf, pos, scalars, was, head + ChannelsBytes(channels));
    }
    FrameAssembled(channels, scalars, head);
    WrittenPrefix(outBuf[..], was, FrameBytes(channels, scalars));
  }

  lemma FrameAssembled(channels: seq<Channel>, scalars: seq<Scalar>, head: seq<Byte>)
    requires CountsFit(channels) && NumSections(channels, scalars) <= 0xFF && |scalars| <= 0xFF
    requires head == [NumSections(channels, scalars)]
    ensures FrameBytes(channels, scalars)
         == if |scalars| > 0 then head + ChannelsBytes(channels) + ScalarsBytes(scalars) else head + ChannelsBytes(channels)
  {
    hide ChannelsBytes, ChannelsSize;
  }

  method TotalSize(channels: seq<Channel>, scalars: seq<Scalar>) returns (total: nat)
    ensures total == FrameSize(channels, scalars)
  {
    total := 1;
    for i := 0 to |channels|
      invariant total == 1 + ChannelsSize(channels[..i])
    {
      assert channels[..i + 1][..i] == channels[..i];
      total := total + 13 + |channels[i].bins| * 4;
    }
    assert channels[..|channels|] == channels;
    if |scalars| > 0 {
      total := total + 6 + |scalars| * 6;
    }
  }

  method PutChannels(buf: array<Byte>, at: nat, channels: seq<Channel>, ghost was: seq<Byte>, ghost bytes: seq<Byte>)
    returns (pos: nat)
    requires CountsFit(channels)
    requires Wrote(buf[..], was, bytes) && at == |bytes| && at + ChannelsSize(channels) <= buf.Length
    modifies buf
    ensures Wrote(buf[..], was, bytes + ChannelsBytes(channels)) && pos == at + ChannelsSize(channels)
  {
    hide ChannelBytes, Wrote;
    pos := at;
    assert bytes + ChannelsBytes([]) == bytes;
    for i := 0 to |channels|
      invariant pos == at + ChannelsSize(channels[..i])
      invariant Wrote(buf[..], was, bytes + ChannelsBytes(channels[..i]))
    {
      assert channels[..i + 1][..i] == channels[..i];
      SizeMonotone(channels, i + 1);
      pos := PutChannel(buf, pos, channels[i], was, bytes + ChannelsBytes(channels[..i]));
      assert bytes + ChannelsBytes(channels[..i]) + ChannelBytes(channels[i]) == bytes + ChannelsBytes(channels[..i + 1]);
    }
    assert channels[..|channels|] == channels;
  }

  lemma NothingWritten(was: seq<Byte>)
    ensures Wrote(was, was, [])
  {
  }

  lemma WrittenPrefix(buf: seq<Byte>, was: seq<Byte>, bytes: seq<Byte>)
    requires Wrote(buf, was, bytes)
    ensures |bytes| <= |was| && buf == bytes + was[|bytes|..]
  {
  }

  lemma {:induction false} SizeMonotone(channels: seq<Channel>, k: nat)
    requires k <= |channels|
    ensures ChannelsSize(channels[..k]) <= ChannelsSize(channels)
    decreases |channels|
  {
    if k == |channels| {
      assert channels[..k] == channels;
    } else {
      SizeMonotone(channels[..|channels| - 1], k);
      assert channels[..|channels| - 1][..k] == channels[..k];
    }
  }
}
