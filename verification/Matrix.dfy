/** 2-vectors and 2x2 matrices over exact reals, with the algebra the Kalman filter's proofs use.
    The proofs of the laws work entry by entry; a client hides the operations and reasons with the
    laws alone. */
module Matrix {
  import opened RealMath

  datatype Vec = Vec(a: real, b: real) {
    function Plus(v: Vec): Vec { Vec(a + v.a, b + v.b) }
    function Minus(v: Vec): Vec { Vec(a - v.a, b - v.b) }
    function Times(k: real): Vec { Vec(k * a, k * b) }
    function Dot(v: Vec): real { a * v.a + b * v.b }
  }

  datatype Mat = Mat(m00: real, m01: real, m10: real, m11: real) {
    function Plus(n: Mat): Mat { Mat(m00 + n.m00, m01 + n.m01, m10 + n.m10, m11 + n.m11) }
    function Minus(n: Mat): Mat { Mat(m00 - n.m00, m01 - n.m01, m10 - n.m10, m11 - n.m11) }
    function Times(k: real): Mat { Mat(k * m00, k * m01, k * m10, k * m11) }
    function Transpose(): Mat { Mat(m00, m10, m01, m11) }
    function Det(): real { m00 * m11 - m01 * m10 }
    function Apply(v: Vec): Vec { Vec(m00 * v.a + m01 * v.b, m10 * v.a + m11 * v.b) }
    function Compose(n: Mat): Mat {
      Mat(m00 * n.m00 + m01 * n.m10, m00 * n.m01 + m01 * n.m11,
          m10 * n.m00 + m11 * n.m10, m10 * n.m01 + m11 * n.m11)
    }
    function Quadratic(v: Vec): real { v.Dot(Apply(v)) }
    predicate Symmetric() { m01 == m10 }
    predicate PositiveDefinite() { Symmetric() && m00 > 0.0 && m11 > 0.0 && Det() > 0.0 }
    predicate PositiveSemidefinite() { Symmetric() && m00 >= 0.0 && m11 >= 0.0 && Det() >= 0.0 }
  }

  const IDENTITY := Mat(1.0, 0.0, 0.0, 1.0)

  function Outer(u: Vec, v: Vec): Mat { Mat(u.a * v.a, u.a * v.b, u.b * v.a, u.b * v.b) }

  // ----- Linearity

  lemma ComposeDistributes(m: Mat, n: Mat, o: Mat)
    ensures m.Minus(n).Compose(o) == m.Compose(o).Minus(n.Compose(o))
  {
  }

  lemma ComposeDistributesRight(m: Mat, n: Mat, o: Mat)
    ensures o.Compose(m.Plus(n)) == o.Compose(m).Plus(o.Compose(n))
  {
  }

  lemma ComposeIdentity(m: Mat)
    ensures IDENTITY.Compose(m) == m
  {
  }

  lemma ScaledRow(x: real, y: real, v: real, w: real, k: real, sx: real, sy: real, c: real)
    requires sx == k * x && sy == k * y && c == x * v + y * w
    ensures sx * v + sy * w == k * c
  {
  }

  lemma PlusApply(m: Mat, n: Mat, v: Vec)
    ensures m.Plus(n).Apply(v) == m.Apply(v).Plus(n.Apply(v))
  {
  }

  lemma MinusApply(m: Mat, n: Mat, v: Vec)
    ensures m.Minus(n).Apply(v) == m.Apply(v).Minus(n.Apply(v))
  {
  }

  lemma ApplyPlus(m: Mat, v: Vec, w: Vec)
    ensures m.Apply(v.Plus(w)) == m.Apply(v).Plus(m.Apply(w))
  {
  }

  lemma ScaleApply(m: Mat, v: Vec, k: real)
    ensures m.Times(k).Apply(v) == m.Apply(v).Times(k)
  {
    var s, c := m.Times(k), m.Apply(v);
    ScaledRow(m.m00, m.m01, v.a, v.b, k, s.m00, s.m01, c.a);
    ScaledRow(m.m10, m.m11, v.a, v.b, k, s.m10, s.m11, c.b);
  }

  lemma ApplyScale(m: Mat, v: Vec, k: real)
    ensures m.Apply(v.Times(k)) == m.Apply(v).Times(k)
  {
    var w, c := v.Times(k), m.Apply(v);
    ScaledRow(v.a, v.b, m.m00, m.m01, k, w.a, w.b, c.a);
    ScaledRow(v.a, v.b, m.m10, m.m11, k, w.a, w.b, c.b);
  }

  // A product is its columns, so its laws follow from those of Apply.

  function Columns(u: Vec, v: Vec): Mat { Mat(u.a, v.a, u.b, v.b) }

  lemma ComposeColumns(m: Mat, n: Mat)
    ensures m.Compose(n) == Columns(m.Apply(Vec(n.m00, n.m10)), m.Apply(Vec(n.m01, n.m11)))
  {
  }

  lemma ScaleCompose(m: Mat, n: Mat, k: real)
    ensures m.Times(k).Compose(n) == m.Compose(n).Times(k)
  {
    hide Mat.Apply, Mat.Compose;
    ComposeColumns(m, n); ComposeColumns(m.Times(k), n);
    ScaleApply(m, Vec(n.m00, n.m10), k); ScaleApply(m, Vec(n.m01, n.m11), k);
  }

  lemma ComposeScale(m: Mat, n: Mat, k: real)
    ensures m.Compose(n.Times(k)) == m.Compose(n).Times(k)
  {
    hide Mat.Apply, Mat.Compose;
    ComposeColumns(m, n); ComposeColumns(m, n.Times(k));
    var s := n.Times(k);
    assert Vec(s.m00, s.m10) == Vec(n.m00, n.m10).Times(k) && Vec(s.m01, s.m11) == Vec(n.m01, n.m11).Times(k);
    ApplyScale(m, Vec(n.m00, n.m10), k); ApplyScale(m, Vec(n.m01, n.m11), k);
  }

  lemma DotLaws(h: Vec, u: Vec, v: Vec, k: real)
    ensures h.Dot(u.Plus(v)) == h.Dot(u) + h.Dot(v)
    ensures h.Dot(u.Times(k)) == k * h.Dot(u)
    ensures h.Dot(v) == v.Dot(h)
  {
  }

  lemma SymmetricApply(l: Mat, u: Vec, v: Vec)
    requires l.Symmetric()
    ensures u.Dot(l.Apply(v)) == v.Dot(l.Apply(u))
  {
  }

  lemma PlusTimes(v: Vec, h: Vec, c: real, d: real)
    ensures v.Plus(h.Times(c)).Plus(h.Times(d)) == v.Plus(h.Times(c + d))
  {
  }

  lemma TimesTimes(h: Vec, c: real, d: real, cd: real)
    requires cd == c * d
    ensures h.Times(c).Times(d) == h.Times(cd)
  {
    Associate(d, c, h.a);
    Associate(d, c, h.b);
  }

  lemma Associate(x: real, y: real, z: real)
    ensures x * (y * z) == (x * y) * z == (y * x) * z
  {
  }

  // ----- Outer products

  /** A multiple of a vector is mapped to that multiple of its image. */
  lemma ScaledImage(m: Mat, v: Vec, k: real, x: real, y: real)
    requires x == k * v.a && y == k * v.b
    ensures var w := m.Apply(v); x * m.m00 + y * m.m01 == k * w.a && x * m.m10 + y * m.m11 == k * w.b
  {
    var w := m.Apply(v);
    ScaledRow(v.a, v.b, m.m00, m.m01, k, x, y, w.a);
    ScaledRow(v.a, v.b, m.m10, m.m11, k, x, y, w.b);
  }

  lemma ComposeOuter(m: Mat, u: Vec, v: Vec)
    ensures m.Compose(Outer(u, v)) == Outer(m.Apply(u), v)
  {
    hide Mat.Apply;
    var n := Outer(u, v);
    ScaledImage(m, u, v.a, n.m00, n.m10);
    ScaledImage(m, u, v.b, n.m01, n.m11);
  }

  lemma OuterCompose(u: Vec, v: Vec, l: Mat)
    requires l.Symmetric()
    ensures Outer(u, v).Compose(l) == Outer(u, l.Apply(v))
  {
    hide Mat.Apply;
    var n := Outer(u, v);
    ScaledImage(l, v, u.a, n.m00, n.m01);
    ScaledImage(l, v, u.b, n.m10, n.m11);
  }

  lemma OuterApply(u: Vec, v: Vec, w: Vec)
    ensures Outer(u, v).Apply(w) == u.Times(v.Dot(w))
  {
    var n, d := Outer(u, v), v.Dot(w);
    ScaledRow(v.a, v.b, w.a, w.b, u.a, n.m00, n.m01, d);
    ScaledRow(v.a, v.b, w.a, w.b, u.b, n.m10, n.m11, d);
  }

  lemma OuterScales(u: Vec, v: Vec, k: real)
    ensures Outer(u.Times(k), v) == Outer(u, v).Times(k)
  {
  }

  lemma OuterMinus(u: Vec, w: Vec, v: Vec)
    ensures Outer(u.Minus(w), v) == Outer(u, v).Minus(Outer(w, v))
  {
  }

  /** i - b X + a (X - c X) == i + (a - b - a c) X */
  lemma OuterCollect(i: Mat, x: Mat, a: real, b: real, c: real, k: real)
    requires k == a - b - a * c
    ensures i.Minus(x.Times(b)).Plus(x.Minus(x.Times(c)).Times(a)) == i.Plus(x.Times(k))
  {
    var y, w := x.Times(c), x.Minus(x.Times(c));
    Collect(i.m00, x.m00, a, b, c, k, y.m00, w.m00);
    Collect(i.m01, x.m01, a, b, c, k, y.m01, w.m01);
    Collect(i.m10, x.m10, a, b, c, k, y.m10, w.m10);
    Collect(i.m11, x.m11, a, b, c, k, y.m11, w.m11);
  }

  lemma Collect(i: real, x: real, a: real, b: real, c: real, k: real, y: real, w: real)
    requires k == a - b - a * c && y == c * x && w == x - y
    ensures (i - b * x) + a * w == i + k * x
  {
  }

  lemma DowndateSymmetric(p: Mat, u: Vec, k: real)
    requires p.Symmetric()
    ensures var d := p.Minus(Outer(u, u).Times(k)); d.Symmetric() && d.Plus(d.Transpose()).Times(0.5) == d
    ensures p.Plus(Outer(u, u).Times(k)).Symmetric()
  {
  }

  // ----- Inverses

  /** `l` is the information matrix of the covariance `p`: its symmetric inverse. */
  predicate InformationOf(l: Mat, p: Mat) {
    l.Symmetric() && p.Symmetric() && p.Compose(l) == IDENTITY
  }

  lemma InverseApplied(l: Mat, p: Mat, v: Vec)
    requires InformationOf(l, p)
    ensures l.Apply(p.Apply(v)) == v
    ensures p.Apply(l.Apply(v)) == v
  {
    assert l.Compose(p) == p.Compose(l).Transpose();
    assert l.Apply(p.Apply(v)) == l.Compose(p).Apply(v);
    assert p.Apply(l.Apply(v)) == p.Compose(l).Apply(v);
  }

  /** The inverse of a positive definite matrix. */
  function Inverse(p: Mat): Mat
    requires p.Det() != 0.0
  {
    Mat(p.m11 / p.Det(), -p.m01 / p.Det(), -p.m10 / p.Det(), p.m00 / p.Det())
  }

  lemma InverseIsInformation(p: Mat)
    requires p.PositiveDefinite()
    ensures InformationOf(Inverse(p), p)
  {
    var d, k := p.Det(), 1.0 / p.Det();
    ScaledInverse(p.m00, p.m01, p.m11, d, k, p.m11 / d, -p.m01 / d, p.m00 / d);
  }

  lemma ScaledInverse(a: real, b: real, e: real, d: real, k: real, i: real, j: real, l: real)
    requires d != 0.0 && d == a * e - b * b && k * d == 1.0 && i == e / d && j == -b / d && l == a / d
    ensures a * i + b * j == 1.0 && a * j + b * l == 0.0 && b * i + e * j == 0.0 && b * j + e * l == 1.0
  {
    Quotient(e, d, k);
    Quotient(-b, d, k);
    Quotient(a, d, k);
    assert a * (k * e) + b * (k * -b) == k * (a * e - b * b);
    assert a * (k * -b) + b * (k * a) == 0.0 && b * (k * e) + e * (k * -b) == 0.0;
    assert b * (k * -b) + e * (k * a) == k * (a * e - b * b);
  }

  lemma Quotient(x: real, d: real, k: real)
    requires d != 0.0 && k * d == 1.0
    ensures x / d == k * x
  {
    var q := x / d;
    assert d * q == x;
    Associate(k, d, q);
  }

  /** A covariance has one information matrix. */
  lemma InformationUnique(l: Mat, m: Mat, p: Mat)
    requires InformationOf(l, p) && InformationOf(m, p)
    ensures l == m
  {
    SameImage(l, m, p, Vec(1.0, 0.0));
    SameImage(l, m, p, Vec(0.0, 1.0));
    assert l.Apply(Vec(1.0, 0.0)) == Vec(l.m00, l.m10) && m.Apply(Vec(1.0, 0.0)) == Vec(m.m00, m.m10);
    assert l.Apply(Vec(0.0, 1.0)) == Vec(l.m01, l.m11) && m.Apply(Vec(0.0, 1.0)) == Vec(m.m01, m.m11);
  }

  lemma SameImage(l: Mat, m: Mat, p: Mat, v: Vec)
    requires InformationOf(l, p) && InformationOf(m, p)
    ensures l.Apply(v) == m.Apply(v)
  {
    hide Mat.Apply, Mat.Compose;
    InverseApplied(m, p, v);
    InverseApplied(l, p, m.Apply(v));
  }

  /** The rank-one update formula: if S = R + h.Ph, then P - (Ph)(Ph)^T / S is the inverse of
      L + h h^T / R, where L is the inverse of P. */
  lemma RankOneInverse(l: Mat, p: Mat, u: Vec, h: Vec, s: real, r: real)
    requires InformationOf(l, p) && u == p.Apply(h) && s == u.Dot(h) + r && s > 0.0 && r > 0.0
    ensures InformationOf(l.Plus(Outer(h, h).Times(1.0 / r)), p.Minus(Outer(u, u).Times(1.0 / s)))
  {
    hide Vec.Dot, Vec.Times, Vec.Minus, Mat.Apply, Mat.Compose, Mat.Plus, Mat.Minus, Mat.Times, Mat.Transpose, Outer;
    var a, b := 1.0 / r, 1.0 / s;
    var c := u.Dot(h) * b;
    var d, v, x := p.Minus(Outer(u, u).Times(b)), Outer(h, h).Times(a), Outer(u, h);
    calc {
      d.Compose(l.Plus(v));
      { ComposeDistributesRight(l, v, d); }
      d.Compose(l).Plus(d.Compose(v));
      { ComposeDistributes(p, Outer(u, u).Times(b), l); ScaleCompose(Outer(u, u), l, b); OuterCompose(u, u, l);
        InverseApplied(l, p, h); }
      IDENTITY.Minus(x.Times(b)).Plus(d.Compose(v));
      { ComposeScale(d, Outer(h, h), a); ComposeOuter(d, h, h); }
      IDENTITY.Minus(x.Times(b)).Plus(Outer(d.Apply(h), h).Times(a));
      { MinusApply(p, Outer(u, u).Times(b), h); ScaleApply(Outer(u, u), h, b); OuterApply(u, u, h);
        TimesTimes(u, u.Dot(h), b, c); }
      IDENTITY.Minus(x.Times(b)).Plus(Outer(u.Minus(u.Times(c)), h).Times(a));
      { OuterMinus(u, u.Times(c), h); OuterScales(u, h, c); }
      IDENTITY.Minus(x.Times(b)).Plus(x.Minus(x.Times(c)).Times(a));
      { Coefficients(s, r, u.Dot(h), a, b, c); OuterCollect(IDENTITY, x, a, b, c, 0.0); }
      IDENTITY.Plus(x.Times(0.0));
      { PlusZero(IDENTITY, x); }
      IDENTITY;
    }
    DowndateSymmetric(p, u, b);
    DowndateSymmetric(l, h, a);
  }

  lemma PlusZero(m: Mat, x: Mat)
    ensures m.Plus(x.Times(0.0)) == m
  {
  }

  lemma Coefficients(s: real, r: real, hu: real, a: real, b: real, c: real)
    requires s == hu + r && s * b == 1.0 && r * a == 1.0 && c == hu * b
    ensures a - b - a * c == 0.0
  {
    assert c == 1.0 - r * b;
    Associate(a, r, b);
  }

  // ----- Definiteness

  lemma PositiveDefiniteSum(p: Mat, q: Mat)
    requires p.PositiveDefinite() && q.PositiveSemidefinite()
    ensures p.Plus(q).PositiveDefinite()
  {
    var s := p.Plus(q);
    // det(p+q) = det p + det q + (p00 q11 + p11 q00 - 2 p01 q01), and the cross term is >= 0
    var cross := p.m00 * q.m11 + p.m11 * q.m00 - 2.0 * p.m01 * q.m01;
    CrossTermNonNegative(p.m00, p.m01, p.m11, q.m00, q.m01, q.m11);
    assert s.Det() == p.Det() + q.Det() + cross;
  }

  lemma CrossTermNonNegative(a: real, b: real, d: real, e: real, f: real, g: real)
    requires a > 0.0 && d > 0.0 && e >= 0.0 && g >= 0.0
    requires a * d - b * b > 0.0 && e * g - f * f >= 0.0
    ensures a * g + d * e - 2.0 * b * f >= 0.0
  {
    // a * cross = bracket + e * det, and e * bracket is a sum of squares
    var bracket := a * a * g - 2.0 * a * b * f + b * b * e;
    if e > 0.0 {
      BracketNonNegative(a, b, e, f, g, bracket, e * g - f * f, a * a, a * f, b * e);
    } else {
      assert e * g == 0.0 && b * b * e == 0.0;
      assert Square(f) == 0.0;
      NonNegativeProduct(Square(a), g, Square(a) * g);
    }
    var cross := a * g + d * e - 2.0 * b * f;
    NonNegativeProduct(e, a * d - b * b, e * (a * d - b * b));
    PositiveFactor(a, cross, bracket + e * (a * d - b * b));
  }

  lemma BracketNonNegative(a: real, b: real, e: real, f: real, g: real, bracket: real, detQ: real,
                           aa: real, af: real, be: real)
    requires e > 0.0 && detQ == e * g - f * f && detQ >= 0.0
    requires aa == a * a && af == a * f && be == b * e && bracket == a * a * g - 2.0 * a * b * f + b * b * e
    ensures bracket >= 0.0
  {
    assert e * (aa * g) == aa * (e * g) && e * (a * b * f) == af * be && e * (b * b * e) == be * be;
    assert aa * (f * f) == af * af;
    var d := af - be;
    assert d * d == af * af - 2.0 * (af * be) + be * be;
    SquareSign(a);
    SquareSign(d);
    NonNegativeProduct(aa, detQ, aa * detQ);
    PositiveFactor(e, bracket, aa * detQ + d * d);
  }

  /** Completing the square: m00 times the quadratic form is a square plus det times a square. */
  lemma QuadraticPositive(p: Mat, v: Vec)
    requires p.PositiveDefinite()
    ensures p.Quadratic(v) >= 0.0
    ensures v != Vec(0.0, 0.0) ==> p.Quadratic(v) > 0.0
  {
    var s := p.m00 * v.a + p.m01 * v.b;
    var tail := p.Det() * Square(v.b);
    PositiveFactor(p.Det(), Square(v.b), tail);
    PositiveFactor(p.m00, p.Quadratic(v), Square(s) + tail);
    if v.b == 0.0 && v.a != 0.0 {
      PositiveProduct(p.m00, Square(v.a), p.Quadratic(v));
    }
  }
}
