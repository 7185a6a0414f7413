/** The sliding-history buffer of the microphone DSP task: blocks of N samples are appended in place,
    windows of N samples are drained `hop` samples apart, and every A windows become one averaged
    frame. The FFT is an arbitrary function of the window. */
module WelchBuffer {
  import opened IntMath
  import opened Wrappers

  /** C's integer division, which truncates toward zero, for a positive divisor. */
  function Truncate(x: int, d: int): int
    requires d > 0
  {
    if x >= 0 then x / d else -((-x) / d)
  }

  function HopSize(n: int, overlapPct: int): (hop: int)
    ensures hop >= 1
  {
    var hop := n - Truncate(overlapPct * n, 100);
    if hop < 1 then 1 else hop
  }

  /** A hop never skips samples, that is, windows cover the stream, exactly when the truncated overlap
      is not negative. */
  lemma HopCoversStream(n: int, overlapPct: int)
    requires n >= 1
    ensures HopSize(n, overlapPct) <= n <==> overlapPct * n > -100
    ensures overlapPct >= 0 ==> overlapPct * n > -100
  {
    if overlapPct >= 0 {
      assert overlapPct * n >= 0;
    }
  }

  /** The hop is the share of the window that does not overlap, rounded up; from 100 percent on it is one. */
  lemma HopIsRoundedShare(n: nat, overlapPct: nat)
    requires n >= 1
    ensures overlapPct < 100 ==> n * (100 - overlapPct) <= 100 * HopSize(n, overlapPct) < n * (100 - overlapPct) + 100
    ensures overlapPct >= 100 ==> HopSize(n, overlapPct) == 1
  {
    var t := overlapPct * n;
    assert n * (100 - overlapPct) == 100 * n - t;
    HopOfOverlap(n, overlapPct, t);
    MultiplesOrdered(100, overlapPct, n);
    MultiplesOrdered(overlapPct, 99, n);
  }

  lemma HopOfOverlap(n: nat, overlapPct: nat, t: nat)
    requires t == overlapPct * n
    ensures HopSize(n, overlapPct) == if n - t / 100 < 1 then 1 else n - t / 100
  {
  }

  /** How many windows of n samples, hop apart, fit in a stream of the given length. */
  function WindowCount(length: nat, n: nat, hop: nat): (k: nat)
    requires n >= hop >= 1
    ensures k > 0 ==> (k - 1) * hop + n <= length
    ensures k * hop + n > length && k * hop <= length
  {
    if length < n then 0 else
      var k := (length - n) / hop + 1;
      QuotientBounds(length - n, hop, k - 1);
      k
  }

  lemma WindowCountUnique(length: nat, n: nat, hop: nat, k: nat)
    requires n >= hop >= 1 && k * hop + n > length && (k > 0 ==> (k - 1) * hop + n <= length)
    ensures k == WindowCount(length, n, hop)
  {
    var j: int := WindowCount(length, n, hop);
    MultiplesOrdered(k, j - 1, hop);
    MultiplesOrdered(j, k - 1, hop);
  }

  /** The sample at which window i starts. */
  function Start(i: nat, hop: nat): (s: nat)
    ensures i == 0 ==> s == 0
  {
    i * hop
  }

  lemma StartNext(i: nat, hop: nat)
    ensures Start(i + 1, hop) == Start(i, hop) + hop
  {
  }

  /** `w` is the window of the stream that starts at sample i * hop. */
  predicate WindowAt(stream: seq<real>, n: nat, hop: nat, i: nat, w: seq<real>) {
    Start(i, hop) + n <= |stream| && w == stream[Start(i, hop)..Start(i, hop) + n]
  }

  /** The windows start at consecutive multiples of the hop, from the beginning of the stream. */
  predicate Consecutive(stream: seq<real>, n: nat, hop: nat, windows: seq<seq<real>>) {
    forall i :: 0 <= i < |windows| ==> WindowAt(stream, n, hop, i, windows[i])
  }

  datatype Complex = Complex(re: real, im: real)

  /** The transform of one window, its normalisation and the conversion to dBFS. */
  datatype Transform = Transform(fft: (seq<real>, nat) -> Complex, norm: real, toDb: real -> real) {
    function Power(window: seq<real>, bin: nat): real {
      var re, im := fft(window, bin).re * norm, fft(window, bin).im * norm;
      re * re + im * im
    }
  }

  /** A bin's power is the squared magnitude of the transform times the square of the normalisation. */
  lemma PowerIs(t: Transform, window: seq<real>, bin: nat)
    ensures var z := t.fft(window, bin);
            t.Power(window, bin) == t.norm * t.norm * (z.re * z.re + z.im * z.im)
  {
  }

  function TotalPower(t: Transform, windows: seq<seq<real>>, bin: nat): real {
    if windows == [] then 0.0
    else TotalPower(t, windows[..|windows| - 1], bin) + t.Power(windows[|windows| - 1], bin)
  }

  const DC_BIN_DB := -120.0

  function Scaled(power: real, count: nat): real
    requires count > 0
  {
    power * (1.0 / count as real)
  }

  function AverageBin(t: Transform, windows: seq<seq<real>>, bin: nat): real
    requires windows != []
  {
    t.toDb(Scaled(TotalPower(t, windows, bin), |windows|))
  }

  /** The frame averaged over the given windows. */
  function Average(t: Transform, bins: nat, windows: seq<seq<real>>): (frame: seq<real>)
    requires windows != []
    ensures |frame| == bins
  {
    seq(bins, b requires 0 <= b < bins => if b == 0 then DC_BIN_DB else AverageBin(t, windows, b))
  }

  /** Every frame averages `a` windows, each window belonging to exactly one frame. */
  predicate Grouped(t: Transform, bins: nat, a: nat, windows: seq<seq<real>>, frames: seq<seq<real>>)
    decreases |frames|
  {
    if frames == [] || a == 0 then
      windows == []
    else
      var k := |frames| - 1;
      && |windows| >= a
      && frames[k] == Average(t, bins, windows[|windows| - a..])
      && Grouped(t, bins, a, windows[..|windows| - a], frames[..k])
  }

  /** Frame j averages the windows j * a to (j + 1) * a - 1. */
  predicate FrameAverages(t: Transform, bins: nat, a: nat, windows: seq<seq<real>>, j: nat, frame: seq<real>) {
    0 <= j * a < (j + 1) * a <= |windows| && frame == Average(t, bins, windows[j * a..(j + 1) * a])
  }

  lemma {:induction false} GroupedFrames(t: Transform, bins: nat, a: nat, windows: seq<seq<real>>, frames: seq<seq<real>>)
    requires a >= 1 && Grouped(t, bins, a, windows, frames)
    ensures |windows| == |frames| * a
    ensures forall j :: 0 <= j < |frames| ==> FrameAverages(t, bins, a, windows, j, frames[j])
    decreases |frames|
  {
    hide Average;
    if frames != [] {
      var k := |frames| - 1;
      var prefix := windows[..|windows| - a];
      GroupedFrames(t, bins, a, prefix, frames[..k]);
      LastFrame(t, bins, a, windows, k, frames[k]);
      FramesOfLongerRun(t, bins, a, windows, |windows| - a, frames[..k]);
    }
  }

  lemma LastFrame(t: Transform, bins: nat, a: nat, windows: seq<seq<real>>, k: nat, frame: seq<real>)
    requires a >= 1 && |windows| - a == k * a && frame == Average(t, bins, windows[|windows| - a..])
    ensures |windows| == (k + 1) * a && FrameAverages(t, bins, a, windows, k, frame)
  {
    hide Average;
    assert (k + 1) * a == k * a + a;
    assert windows[k * a..(k + 1) * a] == windows[|windows| - a..];
  }

  class DspTask {
    const n: nat
    const avgN: nat
    const hop: nat
    const transform: Transform
    const hist: array<real>
    const pwrAcc: array<real>
    var histLen: int
    var histRead: int
    var avgCnt: int
    var fftCount: nat
    var framesEmitted: nat
    var queue: Option<seq<real>>
    ghost var stream: seq<real>           // every sample received
    ghost var windows: seq<seq<real>>     // every window transformed, in order
    ghost var frames: seq<seq<real>>      // every frame posted, in order

    ghost predicate Configured()
      reads this
    {
      && n >= hop >= 1 && avgN >= 1
      && hist.Length == 2 * n && pwrAcc.Length >= 1 && hist != pwrAcc
    }

    /** The windows transformed since the last frame are in the accumulator. */
    ghost predicate Accumulated()
      reads this, pwrAcc
    {
      && fftCount == |windows| && framesEmitted == |frames| && 0 <= avgCnt <= |windows|
      && Grouped(transform, pwrAcc.Length, avgN, windows[..|windows| - avgCnt], frames)
      && (forall b :: 0 <= b < pwrAcc.Length ==> pwrAcc[b] == TotalPower(transform, windows[|windows| - avgCnt..], b))
      && queue == (if frames == [] then None else Some(frames[|frames| - 1]))
    }

    ghost predicate Valid()
      reads this, hist, pwrAcc
    {
      && Configured() && Accumulated() && avgCnt < avgN
      && |windows| == WindowCount(|stream|, n, hop) && Consecutive(stream, n, hop, windows)
      && histRead == 0 && 0 <= histLen < n
      && histLen == |stream| - Start(|windows|, hop)
      && hist[..histLen] == stream[Start(|windows|, hop)..]
    }

    constructor (n: nat, avgN: nat, overlapPct: nat, bins: nat, transform: Transform)
      requires n >= 1 && avgN >= 1 && bins >= 1
      ensures Valid() && fresh(hist) && fresh(pwrAcc)
      ensures this.n == n && this.avgN == avgN && hop == HopSize(n, overlapPct) && this.transform == transform
      ensures pwrAcc.Length == bins && stream == [] && windows == [] && frames == []
    {
      hide Truncate, Start, Average, TotalPower, WindowCount, Grouped;
      HopInWindow(n, overlapPct);
      NothingReceived(transform, bins, avgN, n, HopSize(n, overlapPct));
      this.n, this.avgN, this.hop, this.transform := n, avgN, HopSize(n, overlapPct), transform;
      hist := new real[2 * n];
      pwrAcc := new real[bins](_ => 0.0);
      histLen, histRead, avgCnt, fftCount, framesEmitted := 0, 0, 0, 0, 0;
      queue := None;
      stream, windows, frames := [], [], [];
    }

    /** Adds one window's power, bin by bin, to the accumulator. */
    method AccumulatePower(window: seq<real>)
      requires Configured() && Accumulated()
      modifies this`avgCnt, this`fftCount, this`windows, pwrAcc
      ensures Accumulated()
      ensures windows == old(windows) + [window] && avgCnt == old(avgCnt) + 1
    {
      hide Transform.Power, TotalPower, Average, Grouped;
      ghost var pending := windows[|windows| - avgCnt..];
      for b := 0 to pwrAcc.Length
        invariant forall c :: 0 <= c < b ==> pwrAcc[c] == TotalPower(transform, pending + [window], c)
        invariant forall c :: b <= c < pwrAcc.Length ==> pwrAcc[c] == TotalPower(transform, pending, c)
        modifies pwrAcc
      {
        TotalPowerAppend(transform, pending, window, b);
        pwrAcc[b] := pwrAcc[b] + transform.Power(window, b);
      }
      fftCount := fftCount + 1;
      avgCnt := avgCnt + 1;
      windows := windows + [window];
      assert windows[|windows| - avgCnt..] == pending + [window];
      assert windows[..|windows| - avgCnt] == old(windows)[..|old(windows)| - old(avgCnt)];
    }

    /** Averages the accumulated windows into a frame, clears the accumulator and overwrites the
        one-element output queue. */
    method PostFrame()
      requires Configured() && Accumulated() && avgCnt == avgN
      modifies this`avgCnt, this`framesEmitted, this`queue, this`frames, pwrAcc
      ensures Accumulated() && avgCnt == 0
      ensures old(frames) <= frames
    {
      hide Transform.Power, TotalPower, Scaled, Average, Grouped;
      NoPower(transform);
      ghost var pending := windows[|windows| - avgN..];
      var invN := 1.0 / avgN as real;
      var magDb := [];
      for b := 0 to pwrAcc.Length
        invariant |magDb| == b
        invariant forall c :: 0 <= c < b ==> magDb[c] == AverageBin(transform, pending, c)
        invariant forall c :: 0 <= c < b ==> pwrAcc[c] == 0.0
        invariant forall c :: b <= c < pwrAcc.Length ==> pwrAcc[c] == TotalPower(transform, pending, c)
        modifies pwrAcc
      {
        var mean := pwrAcc[b] * invN;
        ScaledIs(pwrAcc[b], avgN, invN, mean);
        magDb := magDb + [transform.toDb(mean)];
        pwrAcc[b] := 0.0;
      }
      magDb := magDb[0 := DC_BIN_DB];
      avgCnt := 0;
      queue := Some(magDb);
      framesEmitted := framesEmitted + 1;
      AverageIs(transform, pwrAcc.Length, pending, magDb);
      frames := frames + [magDb];
      assert windows[..|windows| - 0] == windows && windows[|windows| - 0..] == [];
      assert frames[..|frames| - 1] == old(frames);
      GroupedAppend(transform, pwrAcc.Length, avgN, windows, old(frames), magDb);
    }

    /** The buffer holds the stream from sample `base` on, of which `histRead` have been consumed; the
        next window to transform starts there. */
    ghost predicate Buffered(base: nat)
      reads this, hist
    {
      && 0 <= histRead <= histLen <= hist.Length
      && histLen == |stream| - base && hist[..histLen] == stream[base..]
      && Start(|windows|, hop) == base + histRead
      && (|windows| > 0 ==> base + histRead - hop + n <= |stream|)
      && Consecutive(stream, n, hop, windows)
    }

    /** Transforms every window the buffer holds, posting a frame after every A of them. */
    method Drain(ghost base: nat)
      requires Configured() && Accumulated() && avgCnt < avgN && Buffered(base)
      modifies this`histRead, this`avgCnt, this`fftCount, this`framesEmitted, this`queue, this`windows, this`frames, pwrAcc
      ensures Accumulated() && avgCnt < avgN && Buffered(base)
      ensures histLen - histRead < n
      ensures old(windows) <= windows && old(frames) <= frames
    {
      hide Start, TotalPower, Average, Grouped, WindowAt, Consecutive;
      while histRead + n <= histLen
        invariant Accumulated() && avgCnt < avgN && Buffered(base)
        invariant old(windows) <= windows && old(frames) <= frames
        decreases histLen - histRead
      {
        var window := hist[histRead..histRead + n];
        WindowInStream(hist[..], stream, base, histLen, histRead, n);
        AppendWindow(stream, n, hop, windows, window, base + histRead);
        AccumulatePower(window);
        histRead := histRead + hop;
        if avgCnt < avgN {
          continue;
        }
        PostFrame();
      }
    }

    /** Copies a block behind the samples left over from the previous ones. */
    method Append(block: seq<real>)
      requires Valid() && |block| == n
      modifies this`histLen, this`stream, hist
      ensures Accumulated() && Buffered(Start(|windows|, hop))
      ensures stream == old(stream) + block
    {
      hide Start, TotalPower, Average, Grouped, WindowAt, Consecutive, WindowCount;
      forall i | 0 <= i < n {
        hist[histLen + i] := block[i];
      }
      assert hist[..histLen + n] == stream[Start(|windows|, hop)..] + block;
      StreamGrows(stream, block, n, hop, windows);
      NextWindow(|stream|, |windows|, n, hop);
      stream := stream + block;
      histLen := histLen + n;
    }

    /** Receives one block. Afterwards the windows transformed are exactly those of the whole stream,
        none skipped or repeated, less than one window is left in the buffer, and every frame posted
        averages the next A windows. */
    method Receive(block: seq<real>)
      requires Valid() && |block| == n
      modifies this, hist, pwrAcc
      ensures Valid()
      ensures stream == old(stream) + block && old(windows) <= windows && old(frames) <= frames
      ensures forall j :: 0 <= j < |frames| ==> FrameAverages(transform, pwrAcc.Length, avgN, windows, j, frames[j])
    {
      hide Start, TotalPower, Average, Grouped, WindowAt, Consecutive, WindowCount, FrameAverages;
      ghost var base := Start(|windows|, hop);
      Append(block);
      Drain(base);
      ghost var next := base + histRead;
      Drained(|stream|, |windows|, n, hop, next);
      assert hist[histRead..histLen] == stream[base..][histRead..] == stream[next..];
      Compact();
      GroupedFrames(transform, pwrAcc.Length, avgN, windows[..|windows| - avgCnt], frames);
      FramesOfLongerRun(transform, pwrAcc.Length, avgN, windows, |windows| - avgCnt, frames);
    }

    /** Moves the samples not yet consumed to the front of the buffer. */
    method Compact()
      requires 0 <= histRead <= histLen <= hist.Length
      modifies this`histLen, this`histRead, hist
      ensures histRead == 0 && histLen == old(histLen) - old(histRead)
      ensures hist[..histLen] == old(hist[histRead..histLen])
    {
      var leftover := histLen - histRead;
      if histRead > 0 && leftover > 0 {
        forall i | 0 <= i < leftover {
          hist[i] := hist[histRead + i];
        }
      }
      histLen := leftover;
      histRead := 0;
    }
  }

  lemma NextWindow(length: nat, k: nat, n: nat, hop: nat)
    requires n >= hop >= 1 && k == WindowCount(length, n, hop)
    ensures k > 0 ==> Start(k, hop) - hop + n <= length
  {
    assert (k - 1) * hop == k * hop - hop;
  }

  lemma Drained(length: nat, k: nat, n: nat, hop: nat, next: nat)
    requires n >= hop >= 1 && Start(k, hop) == next && next + n > length && (k > 0 ==> next - hop + n <= length)
    ensures k == WindowCount(length, n, hop)
  {
    assert (k - 1) * hop == next - hop;
    WindowCountUnique(length, n, hop, k);
  }

  lemma ScaledIs(power: real, count: nat, inv: real, mean: real)
    requires count > 0 && inv == 1.0 / count as real && mean == power * inv
    ensures mean == Scaled(power, count)
  {
  }

  lemma AverageIs(t: Transform, bins: nat, windows: seq<seq<real>>, frame: seq<real>)
    requires windows != [] && |frame| == bins >= 1 && frame[0] == DC_BIN_DB
    requires forall b :: 1 <= b < bins ==> frame[b] == AverageBin(t, windows, b)
    ensures frame == Average(t, bins, windows)
  {
  }

  lemma GroupedAppend(t: Transform, bins: nat, a: nat, windows: seq<seq<real>>, frames: seq<seq<real>>, frame: seq<real>)
    requires 1 <= a <= |windows| && Grouped(t, bins, a, windows[..|windows| - a], frames)
    requires frame == Average(t, bins, windows[|windows| - a..])
    ensures Grouped(t, bins, a, windows, frames + [frame])
  {
    hide Average;
    assert (frames + [frame])[..|frames|] == frames;
  }

  lemma TotalPowerAppend(t: Transform, windows: seq<seq<real>>, w: seq<real>, bin: nat)
    ensures TotalPower(t, windows + [w], bin) == TotalPower(t, windows, bin) + t.Power(w, bin)
  {
    hide Transform.Power;
    assert (windows + [w])[..|windows|] == windows;
  }

  lemma NoPower(t: Transform)
    ensures forall b :: TotalPower(t, [], b) == 0.0
  {
  }

  lemma StreamGrows(stream: seq<real>, block: seq<real>, n: nat, hop: nat, windows: seq<seq<real>>)
    requires Consecutive(stream, n, hop, windows)
    ensures Consecutive(stream + block, n, hop, windows)
  {
    forall i | 0 <= i < |windows|
      ensures WindowAt(stream + block, n, hop, i, windows[i])
    {
      assert WindowAt(stream, n, hop, i, windows[i]);
      assert (stream + block)[Start(i, hop)..Start(i, hop) + n] == stream[Start(i, hop)..Start(i, hop) + n];
    }
  }

  lemma NothingReceived(t: Transform, bins: nat, a: nat, n: nat, hop: nat)
    requires n >= hop >= 1
    ensures WindowCount(0, n, hop) == 0 && Start(0, hop) == 0
    ensures Grouped(t, bins, a, [], []) && forall b: nat :: TotalPower(t, [], b) == 0.0
  {
  }

  lemma HopInWindow(n: nat, overlapPct: nat)
    requires n >= 1
    ensures n >= HopSize(n, overlapPct)
  {
    hide HopSize;
    HopCoversStream(n, overlapPct);
    assert overlapPct * n >= 0;
  }

  lemma WindowInStream(hist: seq<real>, stream: seq<real>, base: nat, len: nat, read: nat, n: nat)
    requires base <= |stream| && read + n <= len <= |hist| && hist[..len] == stream[base..]
    ensures base + read + n <= |stream|
    ensures hist[read..read + n] == stream[base + read..base + read + n]
  {
    assert hist[read..read + n] == hist[..len][read..read + n];
  }

  lemma AppendWindow(stream: seq<real>, n: nat, hop: nat, windows: seq<seq<real>>, w: seq<real>, next: nat)
    requires Consecutive(stream, n, hop, windows)
    requires next == Start(|windows|, hop) && next + n <= |stream| && w == stream[next..next + n]
    ensures Consecutive(stream, n, hop, windows + [w])
    ensures Start(|windows + [w]|, hop) == next + hop
  {
    StartNext(|windows|, hop);
  }

  lemma FramesOfLongerRun(t: Transform, bins: nat, a: nat, windows: seq<seq<real>>, k: nat, frames: seq<seq<real>>)
    requires k <= |windows|
    requires forall j :: 0 <= j < |frames| ==> FrameAverages(t, bins, a, windows[..k], j, frames[j])
    ensures forall j :: 0 <= j < |frames| ==> FrameAverages(t, bins, a, windows, j, frames[j])
  {
    forall j | 0 <= j < |frames|
      ensures FrameAverages(t, bins, a, windows, j, frames[j])
    {
      assert FrameAverages(t, bins, a, windows[..k], j, frames[j]);
      assert windows[..k][j * a..(j + 1) * a] == windows[j * a..(j + 1) * a];
    }
  }
}
