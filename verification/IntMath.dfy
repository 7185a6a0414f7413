/** Integers shared by the buffer, codec and decimation models: bytes, and facts about division. */
module IntMath {

  type Byte = b: int | 0 <= b < 256

  function Min(a: nat, b: nat): nat { if a < b then a else b }

  lemma QuotientBounds(x: nat, d: nat, q: nat)
    requires d >= 1 && q == x / d
    ensures q * d <= x < (q + 1) * d
  {
  }

  lemma MultiplesOrdered(x: int, y: int, d: nat)
    ensures x <= y ==> x * d <= y * d
  {
  }

  lemma Euclid(n: nat, d: nat)
    requires d >= 1
    ensures n == n / d * d + n % d && 0 <= n % d < d
  {
  }

  /** Quotient and remainder are unique. */
  lemma Quotient(n: nat, d: nat, q: nat, qd: nat, r: nat)
    requires r < d && qd == q * d && n == qd + r
    ensures n / d == q && n % d == r
  {
    Euclid(n, d);
    var j := n / d;
    MultiplesOrdered(q + 1, j, d);
    MultiplesOrdered(j + 1, q, d);
    assert (q + 1) * d == qd + d && (j + 1) * d == j * d + d;
  }

  /** Counting one further. */
  lemma DivStep(i: nat, d: nat)
    requires d >= 1
    ensures (i + 1) / d == i / d + (if i % d == d - 1 then 1 else 0)
    ensures (i + 1) % d == if i % d == d - 1 then 0 else i % d + 1
    ensures i % d == d - 1 ==> (i / d + 1) * d == i + 1
  {
    Euclid(i, d);
    var q, r, qd := i / d, i % d, i / d * d;
    assert (q + 1) * d == qd + d;
    if r == d - 1 {
      Quotient(i + 1, d, q + 1, qd + d, 0);
    } else {
      Quotient(i + 1, d, q, qd, r + 1);
    }
  }

  /** Whole periods do not change the phase. */
  lemma PhaseKept(n: nat, i: nat, d: nat)
    requires d >= 1 && n % d == 0
    ensures (n + i) % d == i % d
  {
    Euclid(n, d);
    Euclid(i, d);
    var p, q := n / d, i / d;
    var pd, qd := p * d, q * d;
    assert (p + q) * d == pd + qd;
    Quotient(n + i, d, p + q, pd + qd, i % d);
  }
}
