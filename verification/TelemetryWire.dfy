/** The little-endian wire primitives and the section framing that the firmware's encoder and the
    gateway's codec share. A float travels as its opaque 32-bit pattern. */
module TelemetryWire {
  import opened IntMath

  type U16 = u: int | 0 <= u < 65536

  /** A 32-bit float's bytes, least significant first. */
  datatype Float32 = Float32(b0: Byte, b1: Byte, b2: Byte, b3: Byte)

  const SOURCE_SATELLITE: Byte := 1
  const KIND_SPECTRUM: Byte := 1
  const KIND_TIME_SERIES: Byte := 2
  const KIND_SCALAR_SET: Byte := 3
  const CHANNEL_PERF: Byte := 255

  function PackU16(v: U16): (s: seq<Byte>)
    ensures |s| == 2
  {
    [v % 256, v / 256]
  }

  function ReadU16(s: seq<Byte>, off: nat): U16
    requires off + 2 <= |s|
  {
    s[off] as int + 256 * s[off + 1] as int
  }

  function PackF32(f: Float32): (s: seq<Byte>)
    ensures |s| == 4
  {
    [f.b0, f.b1, f.b2, f.b3]
  }

  function ReadF32(s: seq<Byte>, off: nat): Float32
    requires off + 4 <= |s|
  {
    Float32(s[off], s[off + 1], s[off + 2], s[off + 3])
  }

  function PackU16s(vs: seq<U16>): (s: seq<Byte>)
    ensures |s| == 2 * |vs|
  {
    if vs == [] then [] else PackU16s(vs[..|vs| - 1]) + PackU16(vs[|vs| - 1])
  }

  function PackF32s(fs: seq<Float32>): (s: seq<Byte>)
    ensures |s| == 4 * |fs|
  {
    if fs == [] then [] else PackF32s(fs[..|fs| - 1]) + PackF32(fs[|fs| - 1])
  }

  /** `count` consecutive values from offset `off`. */
  function ReadU16s(s: seq<Byte>, off: nat, count: nat): (vs: seq<U16>)
    requires off + 2 * count <= |s|
    ensures |vs| == count
  {
    if count == 0 then [] else ReadU16s(s, off, count - 1) + [ReadU16(s, off + 2 * (count - 1))]
  }

  function ReadF32s(s: seq<Byte>, off: nat, count: nat): (fs: seq<Float32>)
    requires off + 4 * count <= |s|
    ensures |fs| == count
  {
    if count == 0 then [] else ReadF32s(s, off, count - 1) + [ReadF32(s, off + 4 * (count - 1))]
  }

  lemma U16RoundTrip(a: seq<Byte>, v: U16, c: seq<Byte>)
    ensures ReadU16(a + PackU16(v) + c, |a|) == v
  {
  }

  lemma F32RoundTrip(a: seq<Byte>, f: Float32, c: seq<Byte>)
    ensures ReadF32(a + PackF32(f) + c, |a|) == f
  {
  }

  lemma {:induction false} U16sRoundTrip(a: seq<Byte>, vs: seq<U16>, c: seq<Byte>)
    ensures ReadU16s(a + PackU16s(vs) + c, |a|, |vs|) == vs
  {
    if vs != [] {
      var init, last := vs[..|vs| - 1], vs[|vs| - 1];
      assert a + PackU16s(vs) + c == a + PackU16s(init) + (PackU16(last) + c);
      U16sRoundTrip(a, init, PackU16(last) + c);
      assert a + PackU16s(vs) + c == (a + PackU16s(init)) + PackU16(last) + c;
      U16RoundTrip(a + PackU16s(init), last, c);
    }
  }

  lemma {:induction false} F32sRoundTrip(a: seq<Byte>, fs: seq<Float32>, c: seq<Byte>)
    ensures ReadF32s(a + PackF32s(fs) + c, |a|, |fs|) == fs
  {
    if fs != [] {
      var init, last := fs[..|fs| - 1], fs[|fs| - 1];
      assert a + PackF32s(fs) + c == a + PackF32s(init) + (PackF32(last) + c);
      F32sRoundTrip(a, init, PackF32(last) + c);
      assert a + PackF32s(fs) + c == (a + PackF32s(init)) + PackF32(last) + c;
      F32RoundTrip(a + PackF32s(init), last, c);
    }
  }

  /** Packing what was read gives back the bytes. */
  lemma U16IsBytes(s: seq<Byte>, off: nat)
    requires off + 2 <= |s|
    ensures PackU16(ReadU16(s, off)) == s[off..off + 2]
  {
  }

  lemma SlicesJoin(s: seq<Byte>, i: nat, j: nat, k: nat)
    requires i <= j <= k <= |s|
    ensures s[i..k] == s[i..j] + s[j..k]
  {
  }

  lemma F32IsBytes(s: seq<Byte>, off: nat)
    requires off + 4 <= |s|
    ensures PackF32(ReadF32(s, off)) == s[off..off + 4]
  {
  }

  lemma {:induction false} U16sAreBytes(s: seq<Byte>, off: nat, count: nat)
    requires off + 2 * count <= |s|
    ensures PackU16s(ReadU16s(s, off, count)) == s[off..off + 2 * count]
  {
    hide ReadU16, PackU16;
    if count > 0 {
      var n := count - 1;
      U16sAreBytes(s, off, n);
      U16IsBytes(s, off + 2 * n);
      assert ReadU16s(s, off, count)[..n] == ReadU16s(s, off, n);
      SlicesJoin(s, off, off + 2 * n, off + 2 * count);
    }
  }

  lemma {:induction false} F32sAreBytes(s: seq<Byte>, off: nat, count: nat)
    requires off + 4 * count <= |s|
    ensures PackF32s(ReadF32s(s, off, count)) == s[off..off + 4 * count]
  {
    hide ReadF32, PackF32;
    if count > 0 {
      var n := count - 1;
      F32sAreBytes(s, off, n);
      F32IsBytes(s, off + 4 * n);
      assert ReadF32s(s, off, count)[..n] == ReadF32s(s, off, n);
      SlicesJoin(s, off, off + 4 * n, off + 4 * count);
    }
  }

  // ----- Sections

  datatype Section = Section(source: Byte, channel: Byte, kind: Byte, body: seq<Byte>)

  /** The header with the given length field, whatever the body's own length is. */
  function Header(source: Byte, channel: Byte, kind: Byte, length: U16): (s: seq<Byte>)
    ensures |s| == 5
  {
    [source, channel, kind] + PackU16(length)
  }

  predicate Fits(s: Section) { |s.body| < 65536 }

  function PackSection(s: Section): (b: seq<Byte>)
    requires Fits(s)
    ensures |b| == 5 + |s.body|
  {
    Header(s.source, s.channel, s.kind, |s.body|) + s.body
  }

  function PackSections(ss: seq<Section>): seq<Byte>
    requires forall i :: 0 <= i < |ss| ==> Fits(ss[i])
  {
    if ss == [] then [] else PackSection(ss[0]) + PackSections(ss[1..])
  }

  /** The section that starts at offset `off`, if its header and body fit. */
  function SectionAt(s: seq<Byte>, off: nat): (r: (bool, Section))
    requires off <= |s|
    ensures r.0 ==> Fits(r.1) && off + 5 + |r.1.body| <= |s|
  {
    if off + 5 > |s| then (false, Section(0, 0, 0, []))
    else
      var length := ReadU16(s, off + 3);
      if off + 5 + length > |s| then (false, Section(0, 0, 0, []))
      else (true, Section(s[off], s[off + 1], s[off + 2], s[off + 5..off + 5 + length]))
  }

  /** Reading behind any bytes, a header's length field decides where the body ends. */
  lemma HeaderRoundTrip(a: seq<Byte>, source: Byte, channel: Byte, kind: Byte, length: U16, c: seq<Byte>)
    ensures var s := a + Header(source, channel, kind, length) + c;
            SectionAt(s, |a|) == (if length <= |c| then (true, Section(source, channel, kind, c[..length]))
                                  else (false, Section(0, 0, 0, [])))
  {
    var s := a + Header(source, channel, kind, length) + c;
    assert s == (a + [source, channel, kind]) + PackU16(length) + c;
    U16RoundTrip(a + [source, channel, kind], length, c);
    assert s[|a| + 5..] == c;
    if length <= |c| {
      assert s[|a| + 5..|a| + 5 + length] == c[..length];
    }
  }

  lemma SectionRoundTrip(a: seq<Byte>, sec: Section, c: seq<Byte>)
    requires Fits(sec)
    ensures SectionAt(a + PackSection(sec) + c, |a|) == (true, sec)
  {
    HeaderRoundTrip(a, sec.source, sec.channel, sec.kind, |sec.body|, sec.body + c);
    assert a + PackSection(sec) + c == a + Header(sec.source, sec.channel, sec.kind, |sec.body|) + (sec.body + c);
    assert (sec.body + c)[..|sec.body|] == sec.body;
  }
}
