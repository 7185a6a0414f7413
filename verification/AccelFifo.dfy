/** The KX134 accelerometer driver: FIFO bursts are drained into the caller's X buffer and two staging
    arrays, from which the Y and Z reads that follow are served. */
module AccelFifo {

  import opened IntMath

  const FRAME_BYTES := 6
  const FIFO_MAX_FRAMES := 86
  const STAGE_MAX_SAMPLES := 2048

  /** What the hardware answers each time the driver waits for data. A level carries the two status
      registers and, unless the burst read fails, what the FIFO returns for a burst of any length. */
  datatype Poll = TimedOut | StatusUnreadable | Level(status0: Byte, status1: Byte, burst: BurstRead)

  datatype BurstRead = BurstFailed | Burst(bytes: seq<Byte>)

  /** A count of samples, or a negative error number. */
  datatype ReadResult = Count(n: nat) | InvalidArgument | Timeout | IoError | BadAxis

  predicate Answers(polls: seq<Poll>) {
    forall i :: 0 <= i < |polls| ==>
      polls[i].Level? && polls[i].burst.Burst? ==> |polls[i].burst.bytes| >= FIFO_MAX_FRAMES * FRAME_BYTES
  }

  /** How many frames a poll delivers when `need` are missing. */
  function FramesIn(p: Poll, need: nat): (frames: nat)
    requires p.Level?
    ensures frames <= need && frames <= FIFO_MAX_FRAMES
  {
    Min(Min((p.status0 + p.status1 % 4 * 256) / FRAME_BYTES, FIFO_MAX_FRAMES), need)
  }

  /** The level is the ten low bits of the two registers, in bytes: a poll delivers its whole frames, as many as the
      driver's limit and the caller allow. */
  lemma LevelCounted(p: Poll, need: nat)
    requires p.Level?
    ensures var level, frames := (p.status0 + 256 * p.status1) % 1024, FramesIn(p, need);
            && 6 * frames <= level && frames <= 86 && frames <= need
            && (level < 6 * (frames + 1) || frames == 86 || frames == need)
  {
    assert (p.status0 + 256 * p.status1) % 1024 == p.status0 + p.status1 % 4 * 256;
  }

  lemma WholeFrames(head: nat, frames: nat, rest: nat, need: nat)
    requires head == frames * FRAME_BYTES && frames <= need && rest % FRAME_BYTES == 0
    ensures (head + rest) % FRAME_BYTES == 0
    ensures head + rest <= need * FRAME_BYTES <==> rest <= (need - frames) * FRAME_BYTES
    ensures head + rest == need * FRAME_BYTES <==> rest == (need - frames) * FRAME_BYTES
  {
  }

  /** The bytes drained for `need` frames: whole frames, burst after burst. Ends with a full count, or
      with the first error; polls that never come count as a timeout. */
  function Drain(polls: seq<Poll>, need: nat): (r: (ReadResult, seq<Byte>))
    requires Answers(polls)
    ensures |r.1| % FRAME_BYTES == 0 && |r.1| <= need * FRAME_BYTES
    ensures r.0.Count? <==> |r.1| == need * FRAME_BYTES
    ensures r.0.Count? ==> r.0.n == need
    ensures !r.0.InvalidArgument? && !r.0.BadAxis?
  {
    if need == 0 then (Count(0), [])
    else if polls == [] then (Timeout, [])
    else match polls[0]
      case TimedOut => (Timeout, [])
      case StatusUnreadable => (IoError, [])
      case Level(_, _, burst) =>
        var frames := FramesIn(polls[0], need);
        if frames == 0 then Drain(polls[1..], need)
        else if burst.BurstFailed? then (IoError, [])
        else
          var rest := Drain(polls[1..], need - frames);
          var head := burst.bytes[..frames * FRAME_BYTES];
          WholeFrames(|head|, frames, |rest.1|, need);
          (if rest.0.Count? then Count(need) else rest.0, head + rest.1)
  }

  /** A little-endian two's-complement 16-bit value. */
  function Int16(lo: Byte, hi: Byte): (v: int)
    ensures -32768 <= v < 32768 && (v - lo - 256 * hi) % 65536 == 0
  {
    var u := lo + 256 * hi;
    if u >= 32768 then u - 65536 else u
  }

  /** The raw count of axis 0, 1 or 2 in the i-th frame of a drained stream. */
  function Axis(stream: seq<Byte>, i: nat, axis: nat): int
    requires axis < 3 && (i + 1) * FRAME_BYTES <= |stream|
  {
    Int16(stream[i * FRAME_BYTES + 2 * axis], stream[i * FRAME_BYTES + 2 * axis + 1])
  }

  /** Counts to multiples of g. */
  function Gravity(raw: int): (g: real)
    ensures 4096.0 * g == raw as real
  {
    raw as real / 4096.0
  }

  /** The first n entries of the three buffers are decoded from the first n frames. */
  predicate Aligned(stream: seq<Byte>, n: nat, x: seq<real>, y: seq<int>, z: seq<int>) {
    && n <= |x| && n <= |y| && n <= |z| && |stream| == n * FRAME_BYTES
    && forall i :: 0 <= i < n ==>
         x[i] == Gravity(Axis(stream, i, 0)) && y[i] == Axis(stream, i, 1) && z[i] == Axis(stream, i, 2)
  }

  lemma AlignedNext(stream: seq<Byte>, n: nat, x: seq<real>, y: seq<int>, z: seq<int>, frame: seq<Byte>)
    requires Aligned(stream, n, x, y, z) && n < |x| && n < |y| && n < |z| && |frame| == FRAME_BYTES
    ensures Aligned(stream + frame, n + 1, x[n := Gravity(Int16(frame[0], frame[1]))],
                    y[n := Int16(frame[2], frame[3])], z[n := Int16(frame[4], frame[5])])
  {
    forall i, axis | 0 <= i < n && 0 <= axis < 3
      ensures Axis(stream + frame, i, axis) == Axis(stream, i, axis)
    {
    }
  }

  datatype SensorAxis = X | Y | Z | Other

  class Driver {
    const stageY: array<int>
    const stageZ: array<int>
    var stageN: nat
    var readsOk: nat
    var readErrors: nat

    ghost predicate Valid()
      reads this
    {
      stageY.Length == stageZ.Length == STAGE_MAX_SAMPLES && stageY != stageZ && stageN <= STAGE_MAX_SAMPLES
    }

    constructor ()
      ensures Valid() && stageN == 0 && fresh(stageY) && fresh(stageZ)
    {
      stageY := new int[STAGE_MAX_SAMPLES];
      stageZ := new int[STAGE_MAX_SAMPLES];
      stageN, readsOk, readErrors := 0, 0, 0;
    }

    /** Decodes the frames of one burst behind the samples already staged. */
    method DecodeBurst(outX: array<real>, bytes: seq<Byte>, frames: nat, ghost stream: seq<Byte>)
      requires Valid() && |bytes| == frames * FRAME_BYTES
      requires stageN + frames <= outX.Length && stageN + frames <= STAGE_MAX_SAMPLES
      requires Aligned(stream, stageN, outX[..], stageY[..], stageZ[..])
      modifies this`stageN, outX, stageY, stageZ
      ensures Valid() && stageN == old(stageN) + frames
      ensures Aligned(stream + bytes, stageN, outX[..], stageY[..], stageZ[..])
      ensures outX[stageN..] == old(outX[..])[stageN..]
    {
      hide Aligned, Gravity, Int16;
      assert stream + bytes[..0] == stream;
      for i := 0 to frames
        invariant Aligned(stream + bytes[..i * FRAME_BYTES], stageN + i, outX[..], stageY[..], stageZ[..])
        invariant outX[stageN + i..] == old(outX[..])[stageN + i..]
        modifies outX, stageY, stageZ
      {
        var p := bytes[i * FRAME_BYTES..(i + 1) * FRAME_BYTES];
        AlignedNext(stream + bytes[..i * FRAME_BYTES], stageN + i, outX[..], stageY[..], stageZ[..], p);
        assert stream + bytes[..i * FRAME_BYTES] + p == stream + bytes[..(i + 1) * FRAME_BYTES];
        outX[stageN + i] := Gravity(Int16(p[0], p[1]));
        stageY[stageN + i] := Int16(p[2], p[3]);
        stageZ[stageN + i] := Int16(p[4], p[5]);
      }
      assert bytes[..frames * FRAME_BYTES] == bytes;
      stageN := stageN + frames;
    }

    /** Drains bursts until `want` samples are staged or a poll fails. The bytes decoded are exactly those
        of `Drain`; nothing is written past `want`. */
    method FillEpoch(outX: array<real>, want: nat, polls: seq<Poll>) returns (r: ReadResult)
      requires Valid() && want <= outX.Length && Answers(polls)
      modifies this`stageN, outX, stageY, stageZ
      ensures Valid()
      ensures want > 2048 ==> r == InvalidArgument && stageN == old(stageN)
      ensures want <= 2048 ==>
                var (outcome, stream) := Drain(polls, want);
                && r == outcome && stageN * FRAME_BYTES == |stream|
                && Aligned(stream, stageN, outX[..], stageY[..], stageZ[..])
      ensures outX[want..] == old(outX[..])[want..]
    {
      if want > STAGE_MAX_SAMPLES {
        return InvalidArgument;
      }
      r := DrainBursts(outX, want, polls);
    }

    method DrainBursts(outX: array<real>, want: nat, polls: seq<Poll>) returns (r: ReadResult)
      requires Valid() && want <= outX.Length && Answers(polls) && want <= STAGE_MAX_SAMPLES
      modifies this`stageN, outX, stageY, stageZ
      ensures Valid()
      ensures r == Drain(polls, want).0 && stageN * FRAME_BYTES == |Drain(polls, want).1|
      ensures Aligned(Drain(polls, want).1, stageN, outX[..], stageY[..], stageZ[..])
      ensures outX[want..] == old(outX[..])[want..]
    {
      hide Aligned, Drain, FramesIn, Continued;
      stageN := 0;
      ghost var stream: seq<Byte> := [];
      NothingAligned(outX[..], stageY[..], stageZ[..]);
      var k := 0;
      assert polls[k..] == polls;
      DrainStart(polls, want);
      while stageN < want
        invariant Valid() && stageN <= want && k <= |polls|
        invariant Aligned(stream, stageN, outX[..], stageY[..], stageZ[..]) && |stream| == stageN * FRAME_BYTES
        invariant outX[want..] == old(outX[..])[want..]
        invariant Drain(polls, want) == Continued(stream, want, Drain(polls[k..], want - stageN))
        decreases |polls| - k
      {
        DrainStep(polls, k, want, stageN, stream);
        if k == |polls| {
          return Timeout;
        }
        if polls[k] == TimedOut {
          return Timeout;
        }
        if polls[k] == StatusUnreadable {
          return IoError;
        }
        var frames := FramesIn(polls[k], want - stageN);
        var burst := polls[k].burst;
        k := k + 1;
        if frames == 0 {
          continue;
        }
        if burst.BurstFailed? {
          return IoError;
        }
        var bytes := burst.bytes[..frames * FRAME_BYTES];
        DecodeBurst(outX, bytes, frames, stream);
        stream := stream + bytes;
      }
      DrainDone(polls[k..], stream, want);
      r := Count(stageN);
    }

    /** The driver's read of one axis. X drains the FIFO; Y and Z return what the last X read staged. */
    method ReadBlock(axis: SensorAxis, out: array<real>, maxSamples: nat, polls: seq<Poll>) returns (r: ReadResult)
      requires Valid() && maxSamples <= out.Length && Answers(polls)
      modifies this`stageN, this`readsOk, this`readErrors, out, stageY, stageZ
      ensures Valid()
      ensures axis == X && maxSamples <= 2048 ==>
                var (outcome, stream) := Drain(polls, maxSamples);
                && r == outcome && stageN * FRAME_BYTES == |stream|
                && Aligned(stream, stageN, out[..], stageY[..], stageZ[..])
      ensures axis == X && maxSamples > 2048 ==> r == InvalidArgument && stageN == old(stageN)
      ensures axis == Y || axis == Z ==> r == Count(Min(maxSamples, old(stageN))) && stageN == old(stageN)
      ensures axis != X ==> stageY[..] == old(stageY[..]) && stageZ[..] == old(stageZ[..])
      ensures axis == Y ==> forall i :: 0 <= i < r.n ==> out[i] == Gravity(stageY[i])
      ensures axis == Z ==> forall i :: 0 <= i < r.n ==> out[i] == Gravity(stageZ[i])
      ensures axis == Other ==> r == BadAxis
      ensures out[maxSamples..] == old(out[..])[maxSamples..]
      ensures if r.Count? then readsOk == old(readsOk) + 1 && readErrors == old(readErrors)
              else readErrors == old(readErrors) + 1 && readsOk == old(readsOk)
    {
      hide Aligned, Drain, Gravity;
      if axis == X {
        r := FillEpoch(out, maxSamples, polls);
      } else if axis == Y || axis == Z {
        var n := if maxSamples < stageN then maxSamples else stageN;
        var stage := if axis == Y then stageY else stageZ;
        for i := 0 to n
          invariant forall j :: 0 <= j < i ==> out[j] == Gravity(stage[j])
          invariant out[maxSamples..] == old(out[..])[maxSamples..]
          modifies out
        {
          out[i] := Gravity(stage[i]);
        }
        r := Count(n);
      } else {
        r := BadAxis;
      }
      if r.Count? {
        readsOk := readsOk + 1;
      } else {
        readErrors := readErrors + 1;
      }
    }

    /** One epoch as the sampling task reads it: X, then Y, then Z. After a successful X read the three
        series are aligned: entry i of each comes from the i-th frame of the drained stream. After a
        failed one, Y and Z still return a count, of the samples staged before the failure. */
    method ReadEpoch(outX: array<real>, outY: array<real>, outZ: array<real>, want: nat, polls: seq<Poll>)
      returns (rx: ReadResult, ry: ReadResult, rz: ReadResult)
      requires Valid() && Answers(polls) && want <= 2048
      requires want <= outX.Length && want <= outY.Length && want <= outZ.Length
      requires outX != outY && outY != outZ && outX != outZ
      modifies this`stageN, this`readsOk, this`readErrors, outX, outY, outZ, stageY, stageZ
      ensures Valid()
      ensures var (outcome, stream) := Drain(polls, want);
              && rx == outcome
              && ry == rz == Count(|stream| / FRAME_BYTES)
              && (rx.Count? ==> rx == ry == Count(want))
              && forall i :: 0 <= i < |stream| / FRAME_BYTES ==>
                   && outX[i] == Gravity(Axis(stream, i, 0))
                   && outY[i] == Gravity(Axis(stream, i, 1))
                   && outZ[i] == Gravity(Axis(stream, i, 2))
    {
      hide Drain, Gravity, Axis;
      rx := ReadBlock(X, outX, want, polls);
      ghost var stream := Drain(polls, want).1;
      ghost var n, xs := stageN, outX[..];
      assert n == |stream| / FRAME_BYTES && n <= want;
      ry := ReadBlock(Y, outY, want, polls);
      rz := ReadBlock(Z, outZ, want, polls);
      assert forall i :: 0 <= i < n ==> outX[i] == xs[i];
    }
  }

  lemma NothingAligned(x: seq<real>, y: seq<int>, z: seq<int>)
    ensures Aligned([], 0, x, y, z)
  {
  }

  /** The result of a drain that has already produced `stream`. */
  function Continued(stream: seq<Byte>, want: nat, rest: (ReadResult, seq<Byte>)): (ReadResult, seq<Byte>) {
    (if rest.0.Count? then Count(want) else rest.0, stream + rest.1)
  }

  lemma DrainStart(polls: seq<Poll>, want: nat)
    requires Answers(polls)
    ensures Drain(polls, want) == Continued([], want, Drain(polls, want))
  {
    assert [] + Drain(polls, want).1 == Drain(polls, want).1;
  }

  lemma DrainDone(polls: seq<Poll>, stream: seq<Byte>, want: nat)
    requires Answers(polls)
    ensures Continued(stream, want, Drain(polls, 0)) == (Count(want), stream)
  {
    assert stream + [] == stream;
  }

  /** What the next poll contributes to a drain. */
  lemma DrainStep(polls: seq<Poll>, k: nat, want: nat, staged: nat, stream: seq<Byte>)
    requires Answers(polls) && k <= |polls| && staged < want
    ensures var all := Continued(stream, want, Drain(polls[k..], want - staged));
            if k == |polls| || polls[k] == TimedOut then all == (Timeout, stream)
            else if polls[k] == StatusUnreadable then all == (IoError, stream)
            else
              var frames := FramesIn(polls[k], want - staged);
              if frames == 0 then all == Continued(stream, want, Drain(polls[k + 1..], want - staged))
              else if polls[k].burst.BurstFailed? then all == (IoError, stream)
              else
                all == Continued(stream + polls[k].burst.bytes[..frames * FRAME_BYTES], want,
                                 Drain(polls[k + 1..], want - staged - frames))
  {
    if k < |polls| {
      assert polls[k..][1..] == polls[k + 1..];
    }
    assert stream + [] == stream;
    if k < |polls| && polls[k].Level? && FramesIn(polls[k], want - staged) > 0 && polls[k].burst.Burst? {
      var bytes := polls[k].burst.bytes[..FramesIn(polls[k], want - staged) * FRAME_BYTES];
      var rest := Drain(polls[k + 1..], want - staged - FramesIn(polls[k], want - staged));
      assert stream + (bytes + rest.1) == (stream + bytes) + rest.1;
    }
  }
}
