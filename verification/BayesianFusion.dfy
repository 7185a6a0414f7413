/** Naive-Bayes fusion of per-channel z-scores into a fault posterior, and its attribution. */
module BayesianFusion {
  import opened RealMath
  import opened Wrappers

  /** A channel's z-score; a channel is omitted by passing NaN. */
  datatype Score = NaN | Number(z: real)

  datatype Fusion = Fusion(prior: real, zMid: real, temperature: real) {
    predicate Valid() { 0.0 < prior < 1.0 && temperature > 0.0 }
  }

  /** The constructor, which rejects a prior outside (0, 1) and a non-positive temperature. */
  function Create(prior: real, zMid: real, temperature: real): (r: Option<Fusion>)
    ensures r.Some? <==> 0.0 < prior < 1.0 && temperature > 0.0
    ensures r.Some? ==> r.value.Valid() && r.value.prior == prior
  {
    if !(0.0 < prior && prior < 1.0) then None
    else if temperature <= 0.0 then None
    else Some(Fusion(prior, zMid, temperature))
  }

  function Contribution(f: Fusion, z: real): real
    requires f.Valid()
  {
    (z - f.zMid) / f.temperature
  }

  function ChannelLikelihood(exp: real -> real, f: Fusion, z: real): real
    requires f.Valid() && IsExp(exp)
  {
    ExpLaws(exp, -(z - f.zMid) / f.temperature, 0.0);
    1.0 / (1.0 + exp(-(z - f.zMid) / f.temperature))
  }

  /** The z-scores of the channels that are present. */
  function Present(scores: seq<Score>): seq<real> {
    if scores == [] then [] else
      var last := scores[|scores| - 1];
      Present(scores[..|scores| - 1]) + (if last.Number? then [last.z] else [])
  }

  function Contributions(f: Fusion, zs: seq<real>): (cs: seq<real>)
    requires f.Valid()
    ensures |cs| == |zs| && forall i :: 0 <= i < |zs| ==> cs[i] == Contribution(f, zs[i])
  {
    if zs == [] then [] else Contributions(f, zs[..|zs| - 1]) + [Contribution(f, zs[|zs| - 1])]
  }

  /** The posterior whose odds are the prior odds times `ratio`. */
  function Update(prior: real, ratio: real): real
    requires 0.0 < prior < 1.0 && ratio > 0.0
  {
    assert prior * ratio > 0.0 by { PositiveProduct(prior, ratio, prior * ratio); }
    prior * ratio / (prior * ratio + (1.0 - prior))
  }

  /** The fault posterior given the summed evidence of the channels. */
  function Posterior(exp: real -> real, prior: real, evidence: real): real
    requires 0.0 < prior < 1.0 && IsExp(exp)
  {
    Update(prior, exp(evidence))
  }

  function Odds(p: real): real
    requires p < 1.0
  {
    p / (1.0 - p)
  }

  lemma PosteriorOdds(exp: real -> real, prior: real, evidence: real)
    requires 0.0 < prior < 1.0 && IsExp(exp)
    ensures 0.0 < Posterior(exp, prior, evidence) < 1.0
    ensures Odds(Posterior(exp, prior, evidence)) == Odds(prior) * exp(evidence)
  {
    hide IsExp, Update, Odds;
    ExpLaws(exp, evidence, 0.0);
    UpdateOdds(prior, exp(evidence));
  }

  lemma UpdateOdds(prior: real, ratio: real)
    requires 0.0 < prior < 1.0 && ratio > 0.0
    ensures 0.0 < Update(prior, ratio) < 1.0
    ensures Odds(Update(prior, ratio)) == Odds(prior) * ratio
  {
    var a, b := prior * ratio, 1.0 - prior;
    PositiveProduct(prior, ratio, a);
    PosteriorScalars(a, b, Update(prior, ratio));
    assert (prior / b) * ratio == a / b;
  }

  lemma PosteriorScalars(a: real, b: real, p: real)
    requires a > 0.0 && b > 0.0 && p == a / (a + b)
    ensures 0.0 < p < 1.0 && p / (1.0 - p) == a / b
  {
    assert (a + b) * p == a;
    PositiveFactor(a + b, p, a);
    PositiveFactor(a + b, 1.0 - p, b);
    RatioUnique(p, 1.0 - p, a, b);
  }

  lemma RatioUnique(p: real, q: real, a: real, b: real)
    requires q > 0.0 && b > 0.0 && p * b == a * q
    ensures p / q == a / b
  {
    var x, y := p / q, a / b;
    assert q * x == p && b * y == a;
    assert (q * b) * (x - y) == 0.0;
    PositiveProduct(q, b, q * b);
  }

  lemma ExpOfNegation(exp: real -> real, c: real)
    requires IsExp(exp)
    ensures exp(0.0) == 1.0 && exp(c) > 0.0 && exp(-c) > 0.0
    ensures exp(c) * exp(-c) == 1.0
  {
    hide IsExp;
    var zero := c + -c;
    ExpLaws(exp, zero, zero);
    assert zero + zero == zero && zero == 0.0;
    ExpLaws(exp, c, -c);
    ExpLaws(exp, -c, c);
    UnitSquare(exp(zero), exp(zero), exp(zero + zero));
  }

  lemma UnitSquare(x: real, y: real, xy: real)
    requires x > 0.0 && x == y == xy && xy == x * y
    ensures x == 1.0
  {
    assert x * (y - 1.0) == 0.0;
  }

  /** A likelihood lies strictly between 0 and 1, and its log-odds are the channel's contribution. */
  lemma LikelihoodOdds(exp: real -> real, f: Fusion, z: real)
    requires f.Valid() && IsExp(exp)
    ensures var l, c := ChannelLikelihood(exp, f, z), Contribution(f, z);
            0.0 < l < 1.0 && l == exp(c) * (1.0 - l)
  {
    hide IsExp;
    var c := Contribution(f, z);
    assert -(z - f.zMid) / f.temperature == -c;
    ExpOfNegation(exp, c);
    LogisticScalars(exp(c), exp(-c), ChannelLikelihood(exp, f, z));
  }

  lemma LogisticScalars(e: real, n: real, l: real)
    requires e > 0.0 && n > 0.0 && e * n == 1.0 && l == 1.0 / (1.0 + n)
    ensures 0.0 < l < 1.0 && l == e * (1.0 - l)
  {
    assert (1.0 + n) * l == 1.0;
    PositiveFactor(1.0 + n, l, 1.0);
    PositiveFactor(1.0 + n, 1.0 - l, n);
    assert e * (n * l) == l by { assert e * (n * l) == (e * n) * l; }
  }

  /** The evidence of a list of channels: the sum of the contributions of those present. */
  function Evidence(f: Fusion, scores: seq<Score>): real
    requires f.Valid()
  {
    Sum(Contributions(f, Present(scores)))
  }

  /** Multiplies the likelihoods in a loop; the result is the posterior whose odds are the prior odds
      times the exponential of the summed contributions. The branch for a zero denominator never acts
      in exact arithmetic. */
  method Fuse(exp: real -> real, f: Fusion, scores: seq<Score>) returns (p: real)
    requires f.Valid() && IsExp(exp)
    ensures p == Posterior(exp, f.prior, Evidence(f, scores))
  {
    hide IsExp, Posterior, ChannelLikelihood, Contribution;
    var zs := Present(scores);
    ghost var cs := Contributions(f, zs);
    ExpOfNegation(exp, 0.0);
    if zs == [] {
      p := f.prior;
      PosteriorIs(exp, p, 0.0, 1.0, 1.0, p, 1.0 - p);
      return;
    }
    var pFault, pHealthy := 1.0, 1.0;
    for i := 0 to |zs|
      invariant pHealthy > 0.0
      invariant pFault == exp(Sum(cs[..i])) * pHealthy
    {
      var l := ChannelLikelihood(exp, f, zs[i]);
      LikelihoodOdds(exp, f, zs[i]);
      assert cs[..i + 1][..i] == cs[..i];
      FoldLikelihood(exp, Sum(cs[..i]), cs[i], pFault, pHealthy, l, pFault * l, pHealthy * (1.0 - l));
      pFault := pFault * l;
      pHealthy := pHealthy * (1.0 - l);
    }
    assert cs[..|zs|] == cs;
    var num := f.prior * pFault;
    var rest := (1.0 - f.prior) * pHealthy;
    PosteriorIs(exp, f.prior, Sum(cs), pFault, pHealthy, num, rest);
    var den := num + rest;
    if den <= 0.0 {
      p := f.prior;
    } else {
      p := num / den;
    }
  }

  lemma FoldLikelihood(exp: real -> real, s: real, c: real, pFault: real, pHealthy: real, l: real,
                       pFault': real, pHealthy': real)
    requires IsExp(exp) && pHealthy > 0.0 && pFault == exp(s) * pHealthy && 0.0 < l < 1.0 && l == exp(c) * (1.0 - l)
    requires pFault' == pFault * l && pHealthy' == pHealthy * (1.0 - l)
    ensures pHealthy' > 0.0 && pFault' == exp(s + c) * pHealthy'
  {
    hide IsExp;
    ExpLaws(exp, s, c);
    PositiveProduct(pHealthy, 1.0 - l, pHealthy');
    FoldScalars(exp(s), exp(c), exp(s + c), pHealthy, 1.0 - l, pFault, l, pFault', pHealthy');
  }

  lemma FoldScalars(a: real, b: real, ab: real, h: real, k: real, fault: real, l: real, fault': real, h': real)
    requires ab == a * b && fault == a * h && l == b * k && fault' == fault * l && h' == h * k
    ensures fault' == ab * h'
  {
  }

  lemma PosteriorIs(exp: real -> real, prior: real, s: real, pFault: real, pHealthy: real, num: real, rest: real)
    requires IsExp(exp) && 0.0 < prior < 1.0 && pHealthy > 0.0 && pFault == exp(s) * pHealthy
    requires num == prior * pFault && rest == (1.0 - prior) * pHealthy
    ensures num + rest > 0.0
    ensures num / (num + rest) == Posterior(exp, prior, s)
  {
    hide IsExp;
    ExpLaws(exp, s, 0.0);
    PosteriorIsScalars(prior, exp(s), pFault, pHealthy, num, rest);
  }

  lemma PosteriorIsScalars(prior: real, e: real, pFault: real, pHealthy: real, num: real, rest: real)
    requires 0.0 < prior < 1.0 && e > 0.0 && pHealthy > 0.0 && pFault == e * pHealthy
    requires num == prior * pFault && rest == (1.0 - prior) * pHealthy
    ensures num + rest > 0.0
    ensures num / (num + rest) == Update(prior, e)
  {
    var a, b := prior * e, 1.0 - prior;
    PositiveProduct(prior, e, a);
    PositiveProduct(b, pHealthy, rest);
    PositiveProduct(a, pHealthy, num);
    RatioUnique(num, num + rest, a, a + b);
  }

  // ----- Properties of the fused posterior

  /** More evidence means a strictly higher posterior. */
  lemma PosteriorIncreasing(exp: real -> real, prior: real, e: real, e': real)
    requires IsExp(exp) && 0.0 < prior < 1.0 && e < e'
    ensures Posterior(exp, prior, e) < Posterior(exp, prior, e')
  {
    hide IsExp, Posterior;
    ExpLaws(exp, e, e');
    PosteriorOdds(exp, prior, e);
    PosteriorOdds(exp, prior, e');
    OddsIncreasing(Posterior(exp, prior, e), Posterior(exp, prior, e'), Odds(prior), exp(e), exp(e'));
  }

  lemma OddsIncreasing(p: real, p': real, k: real, x: real, x': real)
    requires 0.0 < p < 1.0 && 0.0 < p' < 1.0 && 0.0 < x < x'
    requires Odds(p) == k * x && Odds(p') == k * x'
    ensures p < p'
  {
    var o, o' := Odds(p), Odds(p');
    assert (1.0 - p) * o == p && (1.0 - p') * o' == p';
    PositiveFactor(1.0 - p, o, p);
    PositiveFactor(x, k, o);
    PositiveProduct(k, x' - x, k * (x' - x));
    // o < o', and p' - p = (1 - p)(1 - p')(o' - o)
    PositiveProduct(1.0 - p, 1.0 - p', (1.0 - p) * (1.0 - p'));
    PositiveProduct((1.0 - p) * (1.0 - p'), o' - o, p' - p);
  }

  /** Fusing in two parts, the first posterior being the prior of the second, fuses everything. */
  lemma FuseInTwoParts(exp: real -> real, f: Fusion, first: seq<Score>, second: seq<Score>)
    requires f.Valid() && IsExp(exp)
    ensures 0.0 < Posterior(exp, f.prior, Evidence(f, first)) < 1.0
    ensures Posterior(exp, Posterior(exp, f.prior, Evidence(f, first)), Evidence(f, second))
         == Posterior(exp, f.prior, Evidence(f, first + second))
  {
    hide IsExp, Posterior, Evidence, Odds;
    var e1, e2 := Evidence(f, first), Evidence(f, second);
    EvidenceSplits(f, first, second);
    PosteriorOdds(exp, f.prior, e1);
    var p1 := Posterior(exp, f.prior, e1);
    PosteriorOdds(exp, p1, e2);
    PosteriorOdds(exp, f.prior, e1 + e2);
    ExpLaws(exp, e1, e2);
    OddsCompose(Odds(f.prior), exp(e1), exp(e2), exp(e1 + e2), Odds(p1), Posterior(exp, p1, e2),
                Posterior(exp, f.prior, e1 + e2));
  }

  lemma OddsCompose(k: real, x: real, y: real, xy: real, o: real, p: real, q: real)
    requires 0.0 < p < 1.0 && 0.0 < q < 1.0
    requires o == k * x && xy == x * y && Odds(p) == o * y && Odds(q) == k * xy
    ensures p == q
  {
    var r := Odds(p);
    assert r == Odds(q);
    assert (1.0 - p) * r == p && (1.0 - q) * r == q;
    assert (p - q) * (1.0 + r) == 0.0;
    PositiveFactor(1.0 - p, r, p);
  }

  lemma {:induction false} PresentSplits(a: seq<Score>, b: seq<Score>)
    ensures Present(a + b) == Present(a) + Present(b)
  {
    if b == [] {
      assert a + b == a;
    } else {
      PresentSplits(a, b[..|b| - 1]);
      assert (a + b)[..|a + b| - 1] == a + b[..|b| - 1];
    }
  }

  lemma EvidenceSplits(f: Fusion, a: seq<Score>, b: seq<Score>)
    requires f.Valid()
    ensures Evidence(f, a + b) == Evidence(f, a) + Evidence(f, b)
  {
    PresentSplits(a, b);
    var x, y := Contributions(f, Present(a)), Contributions(f, Present(b));
    assert Contributions(f, Present(a) + Present(b)) == x + y;
    SumConcat(x, y);
  }

  /** Fusion does not depend on the order of the channels. */
  lemma {:induction false} OrderDoesNotMatter(f: Fusion, a: seq<Score>, b: seq<Score>)
    requires f.Valid() && multiset(a) == multiset(b)
    ensures Evidence(f, a) == Evidence(f, b)
    decreases |a|
  {
    hide Evidence;
    if a == [] {
      assert |b| == |multiset(b)| == 0;
    } else {
      var a', x := a[..|a| - 1], a[|a| - 1];
      assert a == a' + [x];
      var before, after := Extract(a', x, b);
      OrderDoesNotMatter(f, a', before + after);
      EvidenceSplits(f, before, after);
      EvidenceSplits(f, a', [x]);
      EvidenceSplits(f, before, [x]);
      EvidenceSplits(f, before + [x], after);
    }
  }

  lemma Extract(a': seq<Score>, x: Score, b: seq<Score>) returns (before: seq<Score>, after: seq<Score>)
    requires multiset(a' + [x]) == multiset(b)
    ensures b == before + [x] + after && multiset(a') == multiset(before + after)
  {
    hide *;
    assert multiset(a' + [x]) == multiset(a') + multiset{x};
    assert x in multiset(b);
    var i :| 0 <= i < |b| && b[i] == x;
    before, after := b[..i], b[i + 1..];
    assert b == before + [x] + after;
    TakenOut(before, x, after, b);
  }

  lemma TakenOut(before: seq<Score>, x: Score, after: seq<Score>, b: seq<Score>)
    requires b == before + [x] + after
    ensures multiset(before + after) == multiset(b) - multiset{x}
  {
    hide *;
    assert multiset(b) == multiset(before) + multiset{x} + multiset(after);
    assert multiset(before + after) == multiset(before) + multiset(after);
  }

  /** Raising one channel's z-score strictly raises the posterior. */
  lemma RaisingAChannel(exp: real -> real, f: Fusion, scores: seq<Score>, i: nat, z: real)
    requires f.Valid() && IsExp(exp) && i < |scores| && scores[i].Number? && scores[i].z < z
    ensures Posterior(exp, f.prior, Evidence(f, scores)) < Posterior(exp, f.prior, Evidence(f, scores[i := Number(z)]))
  {
    hide IsExp, Posterior, Evidence, Contribution;
    var before, after := scores[..i], scores[i + 1..];
    assert scores == before + [scores[i]] + after && scores[i := Number(z)] == before + [Number(z)] + after;
    EvidenceSplits(f, before + [scores[i]], after);
    EvidenceSplits(f, before, [scores[i]]);
    EvidenceSplits(f, before + [Number(z)], after);
    EvidenceSplits(f, before, [Number(z)]);
    SingleEvidence(f, scores[i].z);
    SingleEvidence(f, z);
    ContributionIncreasing(f, scores[i].z, z);
    PosteriorIncreasing(exp, f.prior, Evidence(f, scores), Evidence(f, scores[i := Number(z)]));
  }

  lemma ContributionIncreasing(f: Fusion, z: real, z': real)
    requires f.Valid() && z < z'
    ensures Contribution(f, z) < Contribution(f, z')
  {
    var q := Contribution(f, z') - Contribution(f, z);
    assert f.temperature * Contribution(f, z') == z' - f.zMid && f.temperature * Contribution(f, z) == z - f.zMid;
    PositiveFactor(f.temperature, q, z' - z);
  }

  lemma SingleEvidence(f: Fusion, z: real)
    requires f.Valid()
    ensures Evidence(f, [Number(z)]) == Contribution(f, z)
  {
    assert Present([Number(z)]) == [z];
    var cs := Contributions(f, [z]);
    assert cs == [Contribution(f, z)] && cs[..0] == [];
    assert Sum(cs) == Sum(cs[..0]) + cs[0];
  }

  // ----- Attribution

  datatype Attribution = Attribution(name: string, contribution: real)

  predicate Descending(s: seq<Attribution>) {
    forall i, j :: 0 <= i < j < |s| ==> s[i].contribution >= s[j].contribution
  }

  /** Inserts behind every entry that contributes at least as much, so that equal entries keep their order. */
  function Insert(s: seq<Attribution>, a: Attribution): (r: seq<Attribution>)
    requires Descending(s)
    ensures Descending(r) && multiset(r) == multiset(s) + multiset{a} && |r| == |s| + 1
  {
    if s == [] || s[|s| - 1].contribution >= a.contribution then
      s + [a]
    else
      var rest, last := s[..|s| - 1], s[|s| - 1];
      assert s == rest + [last];
      var r' := Insert(rest, a);
      assert forall i :: 0 <= i < |r'| ==> r'[i].contribution >= last.contribution by {
        forall i | 0 <= i < |r'| ensures r'[i].contribution >= last.contribution {
          assert r'[i] in multiset(r');
        }
      }
      r' + [last]
  }

  /** The stable descending sort of the contributions. */
  function SortDescending(s: seq<Attribution>): (r: seq<Attribution>)
    ensures Descending(r) && multiset(r) == multiset(s) && |r| == |s|
  {
    if s == [] then [] else
      assert s == s[..|s| - 1] + [s[|s| - 1]];
      Insert(SortDescending(s[..|s| - 1]), s[|s| - 1])
  }

  /** The entries that contribute v, in order. */
  function Contributing(s: seq<Attribution>, v: real): seq<Attribution> {
    if s == [] then []
    else Contributing(s[..|s| - 1], v) + (if s[|s| - 1].contribution == v then [s[|s| - 1]] else [])
  }

  lemma ContributingAppended(s: seq<Attribution>, a: Attribution, v: real)
    ensures Contributing(s + [a], v) == Contributing(s, v) + (if a.contribution == v then [a] else [])
  {
    assert (s + [a])[..|s|] == s;
  }

  lemma {:induction false} InsertIsStable(s: seq<Attribution>, a: Attribution, v: real)
    requires Descending(s)
    ensures Contributing(Insert(s, a), v) == Contributing(s, v) + (if a.contribution == v then [a] else [])
  {
    hide Contributing, Descending;
    if s == [] || s[|s| - 1].contribution >= a.contribution {
      ContributingAppended(s, a, v);
    } else {
      var rest, last := s[..|s| - 1], s[|s| - 1];
      assert s == rest + [last];
      DescendingPrefix(s);
      InsertIsStable(rest, a, v);
      ContributingAppended(Insert(rest, a), last, v);
      ContributingAppended(rest, last, v);
    }
  }

  lemma DescendingPrefix(s: seq<Attribution>)
    requires s != [] && Descending(s)
    ensures Descending(s[..|s| - 1])
  {
  }

  /** Channels that contribute the same keep their order. */
  lemma {:induction false} SortIsStable(s: seq<Attribution>, v: real)
    ensures Contributing(SortDescending(s), v) == Contributing(s, v)
  {
    if s != [] {
      var rest, last := s[..|s| - 1], s[|s| - 1];
      SortIsStable(rest, v);
      InsertIsStable(SortDescending(rest), last, v);
    }
  }

  datatype Channel = Channel(name: string, score: Score)

  /** The length of a list cut at `k`, as Python slices it: a negative `k` counts from the end. */
  function CutAt(n: nat, k: int): (c: nat)
    ensures c <= n
  {
    if k >= n then n else if k >= 0 then k else if -k >= n then 0 else n + k
  }

  /** Position i survives the cut exactly when Python's slice [:k] keeps it. */
  lemma CutIsSlice(n: nat, k: int, i: nat)
    requires i < n
    ensures i < CutAt(n, k) <==> if k >= 0 then i < k else i - n < k
  {
  }

  function Reports(f: Fusion, channels: seq<Channel>): seq<Attribution>
    requires f.Valid()
  {
    if channels == [] then [] else
      var last := channels[|channels| - 1];
      Reports(f, channels[..|channels| - 1])
      + (if last.score.Number? then [Attribution(last.name, Contribution(f, last.score.z))] else [])
  }

  /** Appends a report for every channel present, sorts and cuts the list. What is reported is ordered
      and outweighs what is cut off. */
  method Attribute(f: Fusion, channels: seq<Channel>, topK: int) returns (r: seq<Attribution>)
    requires f.Valid()
    ensures r <= SortDescending(Reports(f, channels)) && |r| == CutAt(|Reports(f, channels)|, topK)
    ensures Descending(r)
  {
    var contribs := [];
    for i := 0 to |channels|
      invariant contribs == Reports(f, channels[..i])
    {
      assert channels[..i + 1][..i] == channels[..i];
      if channels[i].score.Number? {
        contribs := contribs + [Attribution(channels[i].name, (channels[i].score.z - f.zMid) / f.temperature)];
      }
    }
    assert channels[..|channels|] == channels;
    contribs := SortDescending(contribs);
    r := contribs[..CutAt(|contribs|, topK)];
  }

  function Scores(channels: seq<Channel>): (s: seq<Score>)
    ensures |s| == |channels| && forall i :: 0 <= i < |channels| ==> s[i] == channels[i].score
  {
    seq(|channels|, i requires 0 <= i < |channels| => channels[i].score)
  }

  function TotalReported(r: seq<Attribution>): real {
    if r == [] then 0.0 else TotalReported(r[..|r| - 1]) + r[|r| - 1].contribution
  }

  lemma {:induction false} ReportsCarryEvidence(f: Fusion, channels: seq<Channel>)
    requires f.Valid()
    ensures TotalReported(Reports(f, channels)) == Evidence(f, Scores(channels))
  {
    hide Evidence, Contribution, TotalReported;
    if channels == [] {
      NoEvidence(f);
      assert Scores(channels) == [];
    } else {
      var prefix, last := channels[..|channels| - 1], channels[|channels| - 1];
      ReportsCarryEvidence(f, prefix);
      assert Scores(channels) == Scores(prefix) + [last.score];
      EvidenceSplits(f, Scores(prefix), [last.score]);
      if last.score.Number? {
        SingleEvidence(f, last.score.z);
        TotalAppended(Reports(f, prefix), Attribution(last.name, Contribution(f, last.score.z)));
      } else {
        MissingEvidence(f, last.score);
        assert Reports(f, channels) == Reports(f, prefix);
      }
    }
  }

  lemma NoEvidence(f: Fusion)
    requires f.Valid()
    ensures Evidence(f, []) == 0.0 == TotalReported([])
  {
  }

  lemma MissingEvidence(f: Fusion, score: Score)
    requires f.Valid() && !score.Number?
    ensures Evidence(f, [score]) == 0.0
  {
    assert Present([score]) == [];
  }

  lemma TotalAppended(r: seq<Attribution>, a: Attribution)
    ensures TotalReported(r + [a]) == TotalReported(r) + a.contribution
  {
    assert (r + [a])[..|r|] == r;
  }

  lemma {:induction false} InsertTotal(s: seq<Attribution>, a: Attribution)
    requires Descending(s)
    ensures TotalReported(Insert(s, a)) == TotalReported(s) + a.contribution
  {
    if s == [] || s[|s| - 1].contribution >= a.contribution {
      assert (s + [a])[..|s|] == s;
    } else {
      var rest := s[..|s| - 1];
      InsertTotal(rest, a);
      assert Insert(s, a)[..|s|] == Insert(rest, a);
    }
  }

  lemma {:induction false} SortTotal(s: seq<Attribution>)
    ensures TotalReported(SortDescending(s)) == TotalReported(s)
  {
    if s != [] {
      SortTotal(s[..|s| - 1]);
      InsertTotal(SortDescending(s[..|s| - 1]), s[|s| - 1]);
    }
  }

  /** When the cut keeps every channel, the reported contributions are exactly the evidence: the
      posterior odds are the prior odds times the exponential of what attribution reports. */
  lemma AttributionExplainsPosterior(exp: real -> real, f: Fusion, channels: seq<Channel>, topK: int, r: seq<Attribution>)
    requires f.Valid() && IsExp(exp) && topK >= |channels|
    requires r <= SortDescending(Reports(f, channels)) && |r| == CutAt(|Reports(f, channels)|, topK)
    ensures var p := Posterior(exp, f.prior, Evidence(f, Scores(channels)));
            p < 1.0 && Odds(p) == Odds(f.prior) * exp(TotalReported(r))
  {
    hide IsExp, Posterior, Odds, Evidence, TotalReported, SortDescending, Reports;
    ReportsAtMost(f, channels);
    assert r == SortDescending(Reports(f, channels));
    SortTotal(Reports(f, channels));
    ReportsCarryEvidence(f, channels);
    PosteriorOdds(exp, f.prior, Evidence(f, Scores(channels)));
  }

  lemma {:induction false} ReportsAtMost(f: Fusion, channels: seq<Channel>)
    requires f.Valid()
    ensures |Reports(f, channels)| <= |channels|
  {
    if channels != [] {
      ReportsAtMost(f, channels[..|channels| - 1]);
    }
  }
}
