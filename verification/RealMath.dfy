/** Exact real arithmetic shared by the streaming estimators and the DSP kernels. The library
    functions `exp`, `log` and `sqrt` appear as function values; a client that relies on one of
    them states the laws it needs with `IsExp` or `IsSqrt`. */
module RealMath {

  function Max(x: real, y: real): (m: real)
    ensures m >= x && m >= y && (m == x || m == y)
  {
    if x >= y then x else y
  }

  function Min(x: real, y: real): (m: real)
    ensures m <= x && m <= y && (m == x || m == y)
  {
    if x <= y then x else y
  }

  function Abs(x: real): (a: real)
    ensures a >= 0.0 && (a == x || a == -x)
  {
    if x < 0.0 then -x else x
  }

  /** `exp` is positive, strictly increasing and turns sums into products. */
  ghost predicate IsExp(exp: real -> real) {
    && (forall x: real :: exp(x) > 0.0)
    && (forall x: real, y: real :: exp(x + y) == exp(x) * exp(y))
    && (forall x: real, y: real :: x < y ==> exp(x) < exp(y))
  }

  lemma ExpLaws(exp: real -> real, x: real, y: real)
    requires IsExp(exp)
    ensures exp(x) > 0.0
    ensures exp(x + y) == exp(x) * exp(y)
    ensures x < y ==> exp(x) < exp(y)
  {
  }

  /** `sqrt` returns the non-negative root of every non-negative number. */
  ghost predicate IsSqrt(sqrt: real -> real) {
    forall v: real :: v >= 0.0 ==> sqrt(v) >= 0.0 && sqrt(v) * sqrt(v) == v
  }

  function Sum(s: seq<real>): real {
    if s == [] then 0.0 else Sum(s[..|s| - 1]) + s[|s| - 1]
  }

  lemma {:induction false} SumConcat(a: seq<real>, b: seq<real>)
    ensures Sum(a + b) == Sum(a) + Sum(b)
  {
    if b == [] {
      assert a + b == a;
    } else {
      var b' := b[..|b| - 1];
      assert (a + b)[..|a + b| - 1] == a + b';
      SumConcat(a, b');
    }
  }

  // The products below are passed as named values: the solver compares names more reliably than
  // nonlinear terms.

  lemma PositiveProduct(x: real, y: real, xy: real)
    requires x > 0.0 && y > 0.0 && xy == x * y
    ensures xy > 0.0
  {
  }

  lemma NonNegativeProduct(x: real, y: real, xy: real)
    requires x >= 0.0 && y >= 0.0 && xy == x * y
    ensures xy >= 0.0
  {
  }

  lemma PositiveFactor(x: real, y: real, xy: real)
    requires x > 0.0 && xy == x * y
    ensures xy > 0.0 <==> y > 0.0
    ensures xy >= 0.0 <==> y >= 0.0
  {
  }

  lemma SquareSign(x: real)
    ensures x * x >= 0.0
    ensures x * x == 0.0 <==> x == 0.0
  {
    if x > 0.0 {
      PositiveProduct(x, x, x * x);
    } else if x < 0.0 {
      PositiveProduct(-x, -x, x * x);
    }
  }

  function Square(x: real): (q: real)
    ensures q >= 0.0
    ensures q == 0.0 <==> x == 0.0
  {
    SquareSign(x);
    x * x
  }
}
