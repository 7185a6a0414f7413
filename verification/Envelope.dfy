/** The envelope chain: two biquads form a band-pass, the result is rectified, a third biquad smooths it, and
    every m-th sample is kept. Each biquad holds two registers from sample to sample. */
module Envelope {
  import opened IntMath
  import opened RealMath

  datatype Coefficients = Coefficients(b0: real, b1: real, b2: real, a1: real, a2: real)

  datatype Taps = Taps(z1: real, z2: real)

  const RESET := Taps(0.0, 0.0)

  // ----- One biquad

  function Gain(a: real, x: real): real { a * x }

  /** Direct form II transposed. */
  function Output(k: Coefficients, z: Taps, x: real): real { Gain(k.b0, x) + z.z1 }

  function Shifted(k: Coefficients, z: Taps, x: real): Taps {
    var y := Output(k, z, x);
    Taps(Gain(k.b1, x) - Gain(k.a1, y) + z.z2, Gain(k.b2, x) - Gain(k.a2, y))
  }

  function TapsAfter(k: Coefficients, z: Taps, xs: seq<real>): Taps
    decreases |xs|
  {
    if xs == [] then z else Shifted(k, TapsAfter(k, z, xs[..|xs| - 1]), xs[|xs| - 1])
  }

  function Outputs(k: Coefficients, z: Taps, xs: seq<real>): (ys: seq<real>)
    ensures |ys| == |xs|
    decreases |xs|
  {
    if xs == [] then [] else
      Outputs(k, z, xs[..|xs| - 1]) + [Output(k, TapsAfter(k, z, xs[..|xs| - 1]), xs[|xs| - 1])]
  }

  /** Sample i of a signal, zero before its start. */
  function At(s: seq<real>, i: int): real
    requires i < |s|
  {
    if i < 0 then 0.0 else s[i]
  }

  /** The right-hand side of the difference equation at sample n; the initial registers act on the first two
      samples. */
  function Recurrence(k: Coefficients, z: Taps, xs: seq<real>, ys: seq<real>, n: nat): real
    requires n < |xs| && n <= |ys|
  {
    Gain(k.b0, xs[n]) + Gain(k.b1, At(xs, n - 1)) + Gain(k.b2, At(xs, n - 2)) - Gain(k.a1, At(ys, n - 1)) - Gain(k.a2, At(ys, n - 2))
    + (if n == 0 then z.z1 else if n == 1 then z.z2 else 0.0)
  }

  predicate Solves(k: Coefficients, z: Taps, xs: seq<real>, ys: seq<real>) {
    |ys| == |xs| && forall n :: 0 <= n < |xs| ==> ys[n] == Recurrence(k, z, xs, ys, n)
  }

  lemma GainOfZero()
    ensures forall a :: Gain(a, 0.0) == 0.0
  {
  }

  /** The registers are the part of the difference equation that is already known. */
  lemma {:induction false} RegistersHoldHistory(k: Coefficients, z: Taps, xs: seq<real>)
    ensures var n, ys, t := |xs|, Outputs(k, z, xs), TapsAfter(k, z, xs);
            && t.z1 == Gain(k.b1, At(xs, n - 1)) + Gain(k.b2, At(xs, n - 2)) - Gain(k.a1, At(ys, n - 1)) - Gain(k.a2, At(ys, n - 2))
                       + (if n == 0 then z.z1 else if n == 1 then z.z2 else 0.0)
            && t.z2 == Gain(k.b2, At(xs, n - 1)) - Gain(k.a2, At(ys, n - 1)) + (if n == 0 then z.z2 else 0.0)
    decreases |xs|
  {
    hide Gain;
    GainOfZero();
    if xs != [] {
      RegistersHoldHistory(k, z, xs[..|xs| - 1]);
    }
  }

  lemma {:induction false} OutputsSolve(k: Coefficients, z: Taps, xs: seq<real>, ys: seq<real>)
    ensures Solves(k, z, xs, ys) <==> ys == Outputs(k, z, xs)
    decreases |xs|
  {
    hide Outputs, TapsAfter, Gain, Solves, Output, Recurrence;
    NothingToSolve(k, z);
    if xs != [] && |ys| == |xs| {
      var xs', ys', n := xs[..|xs| - 1], ys[..|xs| - 1], |xs| - 1;
      OutputsSolve(k, z, xs', ys');
      SolvesStep(k, z, xs, ys);
      OutputsStep(k, z, xs);
      assert ys == ys' + [ys[n]];
    }
  }

  lemma NothingToSolve(k: Coefficients, z: Taps)
    ensures Outputs(k, z, []) == []
    ensures Solves(k, z, [], [])
    ensures forall xs, ys :: Solves(k, z, xs, ys) ==> |ys| == |xs|
  {
  }

  lemma OutputsStep(k: Coefficients, z: Taps, xs: seq<real>)
    requires xs != []
    ensures var n := |xs| - 1; var ys := Outputs(k, z, xs[..n]);
            Outputs(k, z, xs) == ys + [Recurrence(k, z, xs, ys, n)]
  {
    hide Gain;
    RegistersHoldHistory(k, z, xs[..|xs| - 1]);
  }

  lemma SolvesStep(k: Coefficients, z: Taps, xs: seq<real>, ys: seq<real>)
    requires |xs| == |ys| >= 1
    ensures var n := |xs| - 1;
            Solves(k, z, xs, ys) <==> Solves(k, z, xs[..n], ys[..n]) && ys[n] == Recurrence(k, z, xs, ys[..n], n)
  {
    var last := |xs| - 1;
    forall n | 0 <= n < last ensures Recurrence(k, z, xs, ys, n) == Recurrence(k, z, xs[..last], ys[..last], n) {
    }
    assert Recurrence(k, z, xs, ys, last) == Recurrence(k, z, xs, ys[..last], last);
    assert forall n :: 0 <= n < last ==> ys[n] == ys[..last][n];
  }

  lemma RecurrenceIs(k: Coefficients, z: Taps, xs: seq<real>, ys: seq<real>, n: nat)
    requires n < |xs| && n <= |ys|
    ensures Recurrence(k, z, xs, ys, n)
         == k.b0 * xs[n] + k.b1 * At(xs, n - 1) + k.b2 * At(xs, n - 2) - k.a1 * At(ys, n - 1) - k.a2 * At(ys, n - 2)
            + (if n == 0 then z.z1 else if n == 1 then z.z2 else 0.0)
  {
  }

  /** The two-register filter computes the difference equation, its initial registers acting on the first two
      samples, and nothing else solves it. */
  lemma BiquadIsDifferenceEquation(k: Coefficients, z: Taps, xs: seq<real>, ys: seq<real>)
    ensures (|ys| == |xs| && forall n :: 0 <= n < |xs| ==>
               ys[n] == k.b0 * xs[n] + k.b1 * At(xs, n - 1) + k.b2 * At(xs, n - 2)
                        - k.a1 * At(ys, n - 1) - k.a2 * At(ys, n - 2)
                        + (if n == 0 then z.z1 else if n == 1 then z.z2 else 0.0))
            <==> ys == Outputs(k, z, xs)
  {
    hide Outputs, Recurrence, At;
    OutputsSolve(k, z, xs, ys);
    if |ys| == |xs| {
      forall n | 0 <= n < |xs|
        ensures Recurrence(k, z, xs, ys, n)
             == k.b0 * xs[n] + k.b1 * At(xs, n - 1) + k.b2 * At(xs, n - 2) - k.a1 * At(ys, n - 1) - k.a2 * At(ys, n - 2)
                + (if n == 0 then z.z1 else if n == 1 then z.z2 else 0.0)
      {
        RecurrenceIs(k, z, xs, ys, n);
      }
    }
  }

  // ----- The chain

  datatype Design = Design(bandHp: Coefficients, bandLp: Coefficients, envLp: Coefficients)

  datatype Chain = Chain(bandHp: Taps, bandLp: Taps, envLp: Taps)

  const IDLE := Chain(RESET, RESET, RESET)

  function Rectified(d: Design, c: Chain, x: real): real {
    Abs(Output(d.bandLp, c.bandLp, Output(d.bandHp, c.bandHp, x)))
  }

  function Enveloped(d: Design, c: Chain, x: real): real { Output(d.envLp, c.envLp, Rectified(d, c, x)) }

  function Advanced(d: Design, c: Chain, x: real): Chain {
    Chain(Shifted(d.bandHp, c.bandHp, x), Shifted(d.bandLp, c.bandLp, Output(d.bandHp, c.bandHp, x)),
          Shifted(d.envLp, c.envLp, Rectified(d, c, x)))
  }

  function ChainAfter(d: Design, c: Chain, xs: seq<real>): Chain
    decreases |xs|
  {
    if xs == [] then c else Advanced(d, ChainAfter(d, c, xs[..|xs| - 1]), xs[|xs| - 1])
  }

  /** The envelope before decimation. */
  function EnvelopeOf(d: Design, c: Chain, xs: seq<real>): (ys: seq<real>)
    ensures |ys| == |xs|
    decreases |xs|
  {
    if xs == [] then [] else
      EnvelopeOf(d, c, xs[..|xs| - 1]) + [Enveloped(d, ChainAfter(d, c, xs[..|xs| - 1]), xs[|xs| - 1])]
  }

  function AbsAll(xs: seq<real>): (ys: seq<real>)
    ensures |ys| == |xs| && forall i :: 0 <= i < |xs| ==> ys[i] == Abs(xs[i])
  {
    seq(|xs|, i requires 0 <= i < |xs| => Abs(xs[i]))
  }

  function Cascade(d: Design, c: Chain, xs: seq<real>): seq<real> {
    Outputs(d.envLp, c.envLp, AbsAll(Outputs(d.bandLp, c.bandLp, Outputs(d.bandHp, c.bandHp, xs))))
  }

  /** Running the filters sample by sample equals running each over the whole signal. */
  lemma {:induction false} ChainIsCascade(d: Design, c: Chain, xs: seq<real>)
    ensures EnvelopeOf(d, c, xs) == Cascade(d, c, xs)
    ensures var band := Outputs(d.bandHp, c.bandHp, xs); var passed := Outputs(d.bandLp, c.bandLp, band);
            ChainAfter(d, c, xs) == Chain(TapsAfter(d.bandHp, c.bandHp, xs), TapsAfter(d.bandLp, c.bandLp, band),
                                          TapsAfter(d.envLp, c.envLp, AbsAll(passed)))
    decreases |xs|
  {
    hide Output, Shifted, Abs;
    if xs != [] {
      var prefix := xs[..|xs| - 1];
      ChainIsCascade(d, c, prefix);
      var band := Outputs(d.bandHp, c.bandHp, xs);
      var passed := Outputs(d.bandLp, c.bandLp, band);
      assert band[..|prefix|] == Outputs(d.bandHp, c.bandHp, prefix);
      assert passed[..|prefix|] == Outputs(d.bandLp, c.bandLp, band[..|prefix|]);
      assert AbsAll(passed)[..|prefix|] == AbsAll(passed[..|prefix|]);
    }
  }

  /** The samples kept at decimation factor m. */
  function Decimated(ys: seq<real>, m: nat): seq<real>
    requires m >= 1
    decreases |ys|
  {
    if ys == [] then [] else
      var i := |ys| - 1;
      Decimated(ys[..i], m) + (if i % m == m - 1 then [ys[i]] else [])
  }

  /** Decimation keeps the last of every m samples. */
  lemma {:induction false} DecimatedAt(ys: seq<real>, m: nat, k: nat)
    requires m >= 1
    ensures |Decimated(ys, m)| == |ys| / m
    ensures k < |ys| / m ==> 0 <= (k + 1) * m - 1 < |ys| && Decimated(ys, m)[k] == ys[(k + 1) * m - 1]
    decreases |ys|
  {
    if ys != [] {
      var i := |ys| - 1;
      DivStep(i, m);
      DecimatedAt(ys[..i], m, k);
    }
  }

  // ----- Blocks

  lemma {:induction false} ChainContinues(d: Design, c: Chain, xs: seq<real>, more: seq<real>)
    ensures ChainAfter(d, c, xs + more) == ChainAfter(d, ChainAfter(d, c, xs), more)
    ensures EnvelopeOf(d, c, xs + more) == EnvelopeOf(d, c, xs) + EnvelopeOf(d, ChainAfter(d, c, xs), more)
    decreases |more|
  {
    hide Advanced, Enveloped;
    if more == [] {
      assert xs + more == xs;
    } else {
      ChainContinues(d, c, xs, more[..|more| - 1]);
      assert (xs + more)[..|xs + more| - 1] == xs + more[..|more| - 1];
    }
  }

  lemma {:induction false} DecimatedContinues(ys: seq<real>, more: seq<real>, m: nat)
    requires m >= 1 && |ys| % m == 0
    ensures Decimated(ys + more, m) == Decimated(ys, m) + Decimated(more, m)
    decreases |more|
  {
    if more == [] {
      assert ys + more == ys;
    } else {
      var i := |more| - 1;
      DecimatedContinues(ys, more[..i], m);
      assert (ys + more)[..|ys| + i] == ys + more[..i];
      PhaseKept(|ys|, i, m);
    }
  }

  /** Cutting a signal into two blocks at a multiple of m and carrying the registers over gives the output of
      the whole. */
  lemma BlocksJoin(d: Design, c: Chain, xs: seq<real>, more: seq<real>, m: nat)
    requires m >= 1 && |xs| % m == 0
    ensures Decimated(EnvelopeOf(d, c, xs + more), m)
         == Decimated(EnvelopeOf(d, c, xs), m) + Decimated(EnvelopeOf(d, ChainAfter(d, c, xs), more), m)
  {
    ChainContinues(d, c, xs, more);
    DecimatedContinues(EnvelopeOf(d, c, xs), EnvelopeOf(d, ChainAfter(d, c, xs), more), m);
  }

  // ----- Scaling

  function Scaled(g: real, xs: seq<real>): (ys: seq<real>)
    ensures |ys| == |xs| && forall i :: 0 <= i < |xs| ==> ys[i] == Gain(g, xs[i])
    ensures forall i :: 0 <= i < |xs| ==> ys[i] == g * xs[i]
  {
    seq(|xs|, i requires 0 <= i < |xs| => g * xs[i])
  }

  function ScaledTaps(g: real, z: Taps): Taps { Taps(Gain(g, z.z1), Gain(g, z.z2)) }

  lemma GainLaws(g: real, a: real, x: real, y: real)
    ensures Gain(a, Gain(g, x)) == Gain(g, Gain(a, x))
    ensures Gain(g, x + y) == Gain(g, x) + Gain(g, y) && Gain(g, x - y) == Gain(g, x) - Gain(g, y)
  {
  }

  lemma StepScales(k: Coefficients, z: Taps, x: real, g: real)
    ensures Output(k, ScaledTaps(g, z), Gain(g, x)) == Gain(g, Output(k, z, x))
    ensures Shifted(k, ScaledTaps(g, z), Gain(g, x)) == ScaledTaps(g, Shifted(k, z, x))
  {
    hide Gain;
    var y := Output(k, z, x);
    GainLaws(g, k.b0, x, 0.0);
    GainLaws(g, k.b1, x, 0.0);
    GainLaws(g, k.b2, x, 0.0);
    GainLaws(g, k.a1, y, 0.0);
    GainLaws(g, k.a2, y, 0.0);
    GainLaws(g, 0.0, Gain(k.b0, x), z.z1);
    GainLaws(g, 0.0, Gain(k.b1, x), Gain(k.a1, y));
    GainLaws(g, 0.0, Gain(k.b1, x) - Gain(k.a1, y), z.z2);
    GainLaws(g, 0.0, Gain(k.b2, x), Gain(k.a2, y));
  }

  lemma {:induction false} FilterScales(k: Coefficients, z: Taps, xs: seq<real>, g: real)
    ensures Outputs(k, ScaledTaps(g, z), Scaled(g, xs)) == Scaled(g, Outputs(k, z, xs))
    ensures TapsAfter(k, ScaledTaps(g, z), Scaled(g, xs)) == ScaledTaps(g, TapsAfter(k, z, xs))
    decreases |xs|
  {
    hide Gain, Output, Shifted, ScaledTaps;
    if xs != [] {
      var n := |xs| - 1;
      FilterScales(k, z, xs[..n], g);
      StepScales(k, TapsAfter(k, z, xs[..n]), xs[n], g);
      assert Scaled(g, xs)[..n] == Scaled(g, xs[..n]);
    }
  }

  lemma RectifierScales(g: real, xs: seq<real>)
    ensures AbsAll(Scaled(g, xs)) == Scaled(Abs(g), AbsAll(xs))
  {
    forall i | 0 <= i < |xs| ensures AbsAll(Scaled(g, xs))[i] == Scaled(Abs(g), AbsAll(xs))[i] {
      AbsOfGain(g, xs[i]);
    }
  }

  lemma AbsOfGain(g: real, x: real)
    ensures Abs(Gain(g, x)) == Gain(Abs(g), Abs(x))
  {
    NonNegativeProduct(Abs(g), Abs(x), Abs(g) * Abs(x));
  }

  function ScaledChain(g: real, c: Chain): Chain {
    Chain(ScaledTaps(g, c.bandHp), ScaledTaps(g, c.bandLp), ScaledTaps(Abs(g), c.envLp))
  }

  /** Scaling the input by g, and the registers before the rectifier by g and after it by |g|, scales the
      envelope by |g|. */
  lemma EnvelopeScales(d: Design, c: Chain, xs: seq<real>, g: real)
    ensures EnvelopeOf(d, ScaledChain(g, c), Scaled(g, xs)) == Scaled(Abs(g), EnvelopeOf(d, c, xs))
  {
    hide Gain, Abs, Outputs, AbsAll, Scaled, ScaledTaps;
    ChainIsCascade(d, c, xs);
    ChainIsCascade(d, ScaledChain(g, c), Scaled(g, xs));
    var band := Outputs(d.bandHp, c.bandHp, xs);
    var passed := Outputs(d.bandLp, c.bandLp, band);
    FilterScales(d.bandHp, c.bandHp, xs, g);
    FilterScales(d.bandLp, c.bandLp, band, g);
    RectifierScales(g, passed);
    FilterScales(d.envLp, c.envLp, AbsAll(passed), Abs(g));
  }

  lemma {:induction false} DecimatedScales(ys: seq<real>, m: nat, g: real)
    requires m >= 1
    ensures Decimated(Scaled(g, ys), m) == Scaled(g, Decimated(ys, m))
    decreases |ys|
  {
    hide Gain;
    if ys != [] {
      var i := |ys| - 1;
      DecimatedScales(ys[..i], m, g);
      assert Scaled(g, ys)[..i] == Scaled(g, ys[..i]);
    }
  }

  /** From reset, scaling the input by g scales the decimated output by |g|. */
  lemma OutputScalesFromReset(d: Design, xs: seq<real>, m: nat, g: real)
    requires m >= 1
    ensures Decimated(EnvelopeOf(d, IDLE, Scaled(g, xs)), m) == Scaled(Abs(g), Decimated(EnvelopeOf(d, IDLE, xs), m))
  {
    EnvelopeScales(d, IDLE, xs, g);
    DecimatedScales(EnvelopeOf(d, IDLE, xs), m, Abs(g));
  }

  // ----- The objects

  class Biquad {
    const k: Coefficients
    var z1: real
    var z2: real

    function State(): Taps
      reads this
    {
      Taps(z1, z2)
    }

    /** Stores the coefficients divided by a0. */
    constructor (b0: real, b1: real, b2: real, a0: real, a1: real, a2: real)
      requires a0 != 0.0
      ensures k == Coefficients(b0 / a0, b1 / a0, b2 / a0, a1 / a0, a2 / a0) && State() == RESET
    {
      k := Coefficients(b0 / a0, b1 / a0, b2 / a0, a1 / a0, a2 / a0);
      z1, z2 := 0.0, 0.0;
    }

    method Process(x: real) returns (y: real)
      modifies this
      ensures y == Output(k, old(State()), x)
      ensures State() == Shifted(k, old(State()), x)
      ensures y == k.b0 * x + old(z1)
      ensures z1 == k.b1 * x - k.a1 * y + old(z2) && z2 == k.b2 * x - k.a2 * y
    {
      y := k.b0 * x + z1;
      z1 := k.b1 * x - k.a1 * y + z2;
      z2 := k.b2 * x - k.a2 * y;
    }

    method Reset()
      modifies this
      ensures State() == RESET
    {
      z1, z2 := 0.0, 0.0;
    }
  }

  class EnvelopeFilter {
    const bandHp: Biquad
    const bandLp: Biquad
    const envLp: Biquad

    ghost predicate Valid() { bandHp != bandLp && bandHp != envLp && bandLp != envLp }

    function GetDesign(): Design { Design(bandHp.k, bandLp.k, envLp.k) }

    function State(): Chain
      reads bandHp, bandLp, envLp
    {
      Chain(bandHp.State(), bandLp.State(), envLp.State())
    }

    constructor (bandHp: Biquad, bandLp: Biquad, envLp: Biquad)
      requires bandHp != bandLp && bandHp != envLp && bandLp != envLp
      ensures Valid() && this.bandHp == bandHp && this.bandLp == bandLp && this.envLp == envLp
    {
      this.bandHp, this.bandLp, this.envLp := bandHp, bandLp, envLp;
    }

    method Sample(x: real) returns (y: real)
      requires Valid()
      modifies bandHp, bandLp, envLp
      ensures y == Enveloped(GetDesign(), old(State()), x)
      ensures State() == Advanced(GetDesign(), old(State()), x)
    {
      hide Output, Shifted, Abs;
      y := bandHp.Process(x);
      y := bandLp.Process(y);
      y := Abs(y);
      y := envLp.Process(y);
    }

    /** Filters and decimates a block; output and input may be the same array. Arguments that do not fit are
        rejected with nothing changed. */
    method Process(input: array?<real>, inN: int, decimM: int, output: array?<real>, outN: int) returns (rc: int)
      requires Valid()
      requires input != null ==> inN <= input.Length
      requires output != null ==> outN <= output.Length
      modifies bandHp, bandLp, envLp, output
      ensures rc == 0 || rc == -1
      ensures rc == 0 <==> input != null && output != null && inN > 0 && decimM > 0 && outN > 0 && inN == outN * decimM
      ensures rc == -1 ==> State() == old(State()) && (output != null ==> output[..] == old(output[..]))
      ensures rc == 0 ==> State() == ChainAfter(GetDesign(), old(State()), old(input[..inN]))
      ensures rc == 0 ==> output[..] == Decimated(EnvelopeOf(GetDesign(), old(State()), old(input[..inN])), decimM) + old(output[outN..])
    {
      if input == null || output == null || inN <= 0 || decimM <= 0 || outN <= 0 || inN != outN * decimM {
        return -1;
      }
      Filter(input, inN, decimM, output, outN);
      rc := 0;
    }

    method Filter(input: array<real>, inN: nat, decimM: nat, output: array<real>, outN: nat)
      requires Valid()
      requires inN <= input.Length && outN <= output.Length && decimM >= 1 && inN == outN * decimM
      modifies bandHp, bandLp, envLp, output
      ensures State() == ChainAfter(GetDesign(), old(State()), old(input[..inN]))
      ensures output[..] == Decimated(EnvelopeOf(GetDesign(), old(State()), old(input[..inN])), decimM) + old(output[outN..])
    {
      hide ChainAfter, Enveloped, Advanced, Decimated, EnvelopeOf;
      ghost var d, c, xs, rest := GetDesign(), State(), input[..inN], output[..];
      var oi := 0;
      NothingKept(d, c, xs, decimM);
      for i := 0 to inN
        invariant 0 <= oi <= i && oi == i / decimM
        invariant input[i..inN] == xs[i..]
        invariant State() == ChainAfter(d, c, xs[..i])
        invariant output[oi..] == rest[oi..]
        invariant output[..oi] == Decimated(EnvelopeOf(d, c, xs[..i]), decimM)
      {
        KeptFits(i, decimM, outN);
        DivStep(i, decimM);
        FilterStep(d, c, xs, i, decimM);
        var y := Sample(input[i]);
        if i % decimM == decimM - 1 {
          output[oi] := y;
          oi := oi + 1;
        }
      }
      assert xs[..inN] == xs;
      Quotient(inN, decimM, outN, outN * decimM, 0);
      assert output[..] == output[..oi] + output[oi..];
    }
  }

  lemma NothingKept(d: Design, c: Chain, xs: seq<real>, m: nat)
    requires m >= 1
    ensures xs[..0] == [] && ChainAfter(d, c, []) == c && Decimated(EnvelopeOf(d, c, []), m) == [] && 0 / m == 0
  {
  }

  lemma KeptFits(i: nat, m: nat, n: nat)
    requires m >= 1 && i < n * m
    ensures i / m < n && i / m <= i
  {
    Euclid(i, m);
    MultiplesOrdered(n, i / m, m);
    MultiplesOrdered(1, m, i / m);
    assert m * (i / m) == i / m * m;
  }

  lemma FilterStep(d: Design, c: Chain, xs: seq<real>, i: nat, m: nat)
    requires i < |xs| && m >= 1
    ensures ChainAfter(d, c, xs[..i + 1]) == Advanced(d, ChainAfter(d, c, xs[..i]), xs[i])
    ensures Decimated(EnvelopeOf(d, c, xs[..i + 1]), m)
         == Decimated(EnvelopeOf(d, c, xs[..i]), m)
            + (if i % m == m - 1 then [Enveloped(d, ChainAfter(d, c, xs[..i]), xs[i])] else [])
  {
    hide Advanced, Enveloped;
    assert xs[..i + 1][..i] == xs[..i];
    var ys := EnvelopeOf(d, c, xs[..i + 1]);
    assert ys[..i] == EnvelopeOf(d, c, xs[..i]);
  }
}
