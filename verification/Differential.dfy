/** Differential addition: the y coordinates of `g + h` and `h - g` determine each other. */
module Differential {
  import opened Basics
  import opened Edwards
  import opened Field
  import opened Groups
  import opened Montgomery
  import opened PointCodec

  // ---------------------------------------------------------------- the law for a difference

  lemma NegatedCross(x: int, y: int, u: int, v: int)
    ensures Eq(Cross(u, v, Rem(-x), y), -Cross(x, y, u, v))
  {
    var w := D * (u * v);
    EqTimes(Rem(-x), -x, y);
    EqTimes(Rem(-x) * y, -x * y, w);
    Commute(w, Rem(-x) * y);
    NegatedProduct(x, y, w);
    Regroup(D, u * v, x * y);
    Regroup(D, x * y, u * v);
    Commute(u * v, x * y);
  }

  lemma NegatedProduct(x: int, y: int, w: int)
    ensures (-x * y) * w == -(w * (x * y)) && -x * y == -(x * y)
  {
    Commute(x * y, w);
  }

  lemma NegatedOnCurve(x: int, y: int)
    requires OnCurve(x, y)
    ensures OnCurve(Rem(-x), y)
  {
    SquareReduced(-x);
    assert (-x) * (-x) == x * x;
    CurveSolved(x, y);
    EqTimes(Rem(-x) * Rem(-x), x * x, D * y * y + 1);
    CurveSolved(Rem(-x), y);
  }

  /** The mirror image of an element is its inverse. */
  lemma MirrorIsInverse<G(!new)>(c: Curve<G>, g: G) returns (n: G)
    requires Fermat() && EdwardsGroup(c)
    ensures c.ax(n) == Rem(-c.ax(g)) && c.ay(n) == c.ay(g)
    ensures c.group.add(g, n) == c.group.zero
  {
    var x, y := c.ax(g), c.ay(g);
    assert ElementAt(c, g);
    n := c.at(Rem(-x), y);
    NegatedOnCurve(x, y);
    assert ReachedAt(c, Rem(-x), y);
    assert AddsAt(c, g, n);
    var s := c.group.add(g, n);
    assert ElementAt(c, s);
    NegatedCross(x, y, x, y);
    CancelledSum(x, y, Cross(x, y, Rem(-x), y), c.ax(s), c.ay(s));
    assert SamePlace(c, s, c.group.zero);
  }

  lemma CancelledSum(x: int, y: int, k: int, xs: int, ys: int)
    requires Fermat() && OnCurve(x, y) && 0 <= xs < P && 0 <= ys < P
    requires !Eq(1 + k, 0) && !Eq(1 - k, 0) && Eq(k, -Cross(x, y, x, y))
    requires Eq(xs * (1 + k), x * y + Rem(-x) * y) && Eq(ys * (1 - k), y * y + x * Rem(-x))
    ensures xs == 0 && ys == 1
  {
    EqTimes(Rem(-x), -x, y);
    NegatedProduct(x, y, 1);
    EqAdd(x * y, x * y, Rem(-x) * y, -(x * y));
    NoZeroDivisors(xs, 1 + k);
    Small(xs);
    EqTimes(Rem(-x), -x, x);
    NegatedProduct(x, x, 1);
    Commute(x, Rem(-x));
    EqAdd(y * y, y * y, x * Rem(-x), -(x * x));
    EqAdd(1, 1, k, -Cross(x, y, x, y));
    assert y * y + -(x * x) == y * y - x * x;
    assert 1 * (1 - k) == 1 - k;
    Cancel(ys, 1, 1 - k);
    Small(ys);
    TwoIsNotZero();
    Small(1);
  }

  /** With `h = g + g0`, the y coordinate of the difference `g0 = h - g`. */
  lemma DifferenceLaw<G(!new)>(c: Curve<G>, g: G, g0: G)
    requires Fermat() && EdwardsGroup(c)
    ensures var h := c.group.add(g, g0);
            Eq(c.ay(g0) * (1 + Cross(c.ax(g), c.ay(g), c.ax(h), c.ay(h))), c.ay(g) * c.ay(h) - c.ax(g) * c.ax(h))
  {
    var gr := c.group;
    var h := gr.add(g, g0);
    var n := MirrorIsInverse(c, g);
    assert LawsAt(gr, g, g0, n) && LawsAt(gr, g0, g, n) && LawsAt(gr, g0, gr.zero, n);
    assert gr.add(h, n) == g0;
    assert AddsAt(c, h, n);
    var x1, y1, x2, y2 := c.ax(g), c.ay(g), c.ax(h), c.ay(h);
    NegatedCross(x1, y1, x2, y2);
    MirroredLaw(c.ay(g0), x1, y1, x2, y2, Cross(x2, y2, Rem(-x1), y1), Cross(x1, y1, x2, y2));
  }

  lemma MirroredLaw(y0: int, x1: int, y1: int, x2: int, y2: int, k: int, kk: int)
    requires Eq(k, -kk) && Eq(y0 * (1 - k), y2 * y1 + x2 * Rem(-x1))
    ensures Eq(y0 * (1 + kk), y1 * y2 - x1 * x2)
  {
    EqAdd(1, 1, k, -kk);
    EqTimes(1 - k, 1 + kk, y0);
    Commute(y0, 1 - k);
    Commute(y0, 1 + kk);
    EqTimes(Rem(-x1), -x1, x2);
    NegatedProduct(x1, x2, 1);
    Commute(x2, Rem(-x1));
    EqAdd(y2 * y1, y2 * y1, x2 * Rem(-x1), -(x1 * x2));
    Commute(y1, y2);
  }

  // ---------------------------------------------------------------- the identity

  lemma SquaredForms(y1: int, y2: int, d: int)
    ensures var p, s := y1 * y2, y1 + y2;
            && (d * (y1 * y1) + 1) * (d * (y2 * y2) + 1) == (d * p - 1) * (d * p - 1) + d * (s * s)
            && (y1 * y1 - 1) * (y2 * y2 - 1) == (1 + p) * (1 + p) - s * s
  {
    var a, b, p := y1 * y1, y2 * y2, y1 * y2;
    Interchange(y1, y1, y2, y2);
    assert (y1 + y2) * (y1 + y2) == a + b + 2 * p;
    ProductOfForms(a, b, p, d, a + b + 2 * p);
  }

  lemma ProductOfForms(a: int, b: int, p: int, d: int, t: int)
    requires a * b == p * p && t == a + b + 2 * p
    ensures (d * a + 1) * (d * b + 1) == (d * p - 1) * (d * p - 1) + d * t
    ensures (a - 1) * (b - 1) == (1 + p) * (1 + p) - t
  {
    assert (d * a + 1) * (d * b + 1) == (d * a) * (d * b) + d * a + d * b + 1;
    Interchange(d, a, d, b);
    Interchange(d, p, d, p);
    assert (d * p - 1) * (d * p - 1) == (d * p) * (d * p) - 2 * (d * p) + 1;
    Distribute(a + b, 2 * p, d);
    Distribute(a, b, d);
    assert d * t == d * a + d * b + 2 * (d * p);
    assert (a - 1) * (b - 1) == a * b - a - b + 1;
    assert (1 + p) * (1 + p) == 1 + 2 * p + p * p;
  }

  lemma ThreeTerms(a: int, b: int, t: int, d: int)
    ensures a * (b + d * t) - (a - t) * b == t * (d * a + b)
  {
    assert a * (b + d * t) == a * b + a * (d * t);
    Distribute(a, t, b);
    Regroup(a, d, t);
    Commute(a, d);
    Regroup(t, d, a);
    Commute(t, d);
    assert t * (d * a + b) == t * (d * a) + t * b;
    Commute(d * a, t);
  }

  /** `1 + d p` and `1 - d p` lead to the same cofactor. */
  lemma SameCofactor(p: int, d: int)
    ensures d * ((1 + p) * (1 + p)) + (d * p - 1) * (d * p - 1)
         == d * ((1 - p) * (1 - p)) + (d * p + 1) * (d * p + 1)
  {
    assert (1 + p) * (1 + p) == 1 + 2 * p + p * p && (1 - p) * (1 - p) == 1 - 2 * p + p * p;
    var e := d * p;
    assert (e - 1) * (e - 1) == e * e - 2 * e + 1 && (e + 1) * (e + 1) == e * e + 2 * e + 1;
    assert d * (1 + 2 * p + p * p) == d + 2 * e + d * (p * p);
    assert d * (1 - 2 * p + p * p) == d - 2 * e + d * (p * p);
  }

  lemma FactorPair(p: int, q: int, e: int, k: int)
    requires k == e * q
    ensures (1 - k + (p + q)) * (1 + k + (p - q)) == (1 + p) * (1 + p) - ((e - 1) * (e - 1)) * (q * q)
  {
    var w := (e - 1) * q;
    assert w == k - q;
    assert (1 + p - w) * (1 + p + w) == (1 + p) * (1 + p) - w * w;
    Interchange(e - 1, q, e - 1, q);
  }

  lemma OnePlus(y: int, m: int, n: int)
    requires Eq(y * m, n)
    ensures Eq((1 + y) * m, m + n)
  {
    EqAdd(m, m, y * m, n);
    Distribute(1, y, m);
  }

  /** The product of the two laws, for one choice of signs. */
  lemma ProductOfLaws(p: int, q: int, yp: int, y0: int, k: int)
    requires k == D * p * q && Eq(yp * (1 - k), p + q) && Eq(y0 * (1 + k), p - q)
    ensures Eq(((1 + yp) * (1 + y0)) * ((1 - k) * (1 + k)),
               (1 + p) * (1 + p) - ((D * p - 1) * (D * p - 1)) * (q * q))
  {
    OnePlus(yp, 1 - k, p + q);
    OnePlus(y0, 1 + k, p - q);
    EqMul((1 + yp) * (1 - k), 1 - k + (p + q), (1 + y0) * (1 + k), 1 + k + (p - q));
    Interchange(1 + yp, 1 + y0, 1 - k, 1 + k);
    FactorPair(p, q, D * p, k);
  }

  /** `(1 + p)^2 d + (d p - 1)^2` */
  function Cofactor(p: int): int {
    D * ((1 + p) * (1 + p)) + (D * p - 1) * (D * p - 1)
  }

  /** `(d y1^2 + 1) (d y2^2 + 1)` */
  function Forms(y1: int, y2: int): int {
    (D * (y1 * y1) + 1) * (D * (y2 * y2) + 1)
  }

  lemma HalfIdentity(y1: int, y2: int, q: int, yp: int, y0: int, k: int)
    requires k == D * (y1 * y2) * q && Eq(yp * (1 - k), y1 * y2 + q) && Eq(y0 * (1 + k), y1 * y2 - q)
    requires Eq((q * q) * Forms(y1, y2), (y1 * y1 - 1) * (y2 * y2 - 1))
    ensures Eq(((1 + yp) * (1 + y0)) * (((1 - k) * (1 + k)) * Forms(y1, y2)),
               ((y1 + y2) * (y1 + y2)) * Cofactor(y1 * y2))
  {
    var p := y1 * y2;
    var a, b, f, w := (1 + p) * (1 + p), (D * p - 1) * (D * p - 1), Forms(y1, y2), (y1 * y1 - 1) * (y2 * y2 - 1);
    ProductOfLaws(p, q, yp, y0, k);
    TimesForms((1 + yp) * (1 + y0), (1 - k) * (1 + k), a, b, q * q, f, w);
    SquaredForms(y1, y2, D);
    ThreeTerms(a, b, (y1 + y2) * (y1 + y2), D);
    Commute(b, w);
  }

  lemma TimesForms(l: int, m: int, a: int, b: int, qq: int, f: int, w: int)
    requires Eq(l * m, a - b * qq) && Eq(qq * f, w)
    ensures Eq(l * (m * f), a * f - b * w)
  {
    EqTimes(l * m, a - b * qq, f);
    Regroup(l, m, f);
    Distribute(a, b * qq, f);
    Regroup(b, qq, f);
    EqTimes(qq * f, w, b);
    Commute(b, qq * f);
    Commute(b, w);
    EqAdd(a * f, a * f, b * (qq * f), b * w);
  }

  lemma CoordinatesSolved(x1: int, y1: int, x2: int, y2: int)
    requires OnCurve(x1, y1) && OnCurve(x2, y2)
    ensures Eq(((x1 * x2) * (x1 * x2)) * Forms(y1, y2), (y1 * y1 - 1) * (y2 * y2 - 1))
  {
    var e1, e2 := D * (y1 * y1) + 1, D * (y2 * y2) + 1;
    CurveSolved(x1, y1);
    CurveSolved(x2, y2);
    Regroup(D, y1, y1);
    Regroup(D, y2, y2);
    EqMul((x1 * x1) * e1, y1 * y1 - 1, (x2 * x2) * e2, y2 * y2 - 1);
    Interchange(x1 * x1, e1, x2 * x2, e2);
    Interchange(x1, x2, x1, x2);
  }

  lemma FormsNotZero(y1: int, y2: int)
    requires FieldFacts()
    ensures !Eq(Forms(y1, y2), 0)
  {
    DenominatorNotZero(y1);
    DenominatorNotZero(y2);
    Regroup(D, y1, y1);
    Regroup(D, y2, y2);
    ProductNonzero(D * (y1 * y1) + 1, D * (y2 * y2) + 1);
  }

  lemma CrossOfProducts(x1: int, y1: int, x2: int, y2: int)
    ensures Cross(x1, y1, x2, y2) == D * (y1 * y2) * (x1 * x2)
  {
    Regroup(D, x1 * y1, x2 * y2);
    Interchange(x1, y1, x2, y2);
    Commute(x1 * x2, y1 * y2);
    Regroup(D, y1 * y2, x1 * x2);
  }

  /** From the two halves, the cofactor drops out. */
  lemma Eliminate(l1: int, l2: int, t: int, s: int, m: int, r: int)
    requires Fermat() && !Eq(t, 0) && Eq(l1 * t, s * r) && Eq(l2 * t, m * r)
    ensures Eq(l1 * m, l2 * s)
  {
    EqTimes(l1 * t, s * r, m);
    EqTimes(l2 * t, m * r, s);
    Rotate(l1, t, m);
    Rotate(l2, t, s);
    Rotate(s, r, m);
    Rotate(m, r, s);
    Commute(s, m);
    Cancel(l1 * m, l2 * s, t);
  }

  lemma Mirrored(y1: int, y2: int, q: int, yp: int, y0: int, k: int)
    requires k == D * (y1 * y2) * q && Eq(yp * (1 - k), y1 * y2 + q) && Eq(y0 * (1 + k), y1 * y2 - q)
    ensures k == D * (y1 * -y2) * -q
    ensures Eq((-yp) * (1 - k), y1 * -y2 + -q) && Eq((-y0) * (1 + k), y1 * -y2 - -q)
    ensures Forms(y1, -y2) == Forms(y1, y2) && (-q) * (-q) == q * q && (-y2) * (-y2) == y2 * y2
    ensures Cofactor(y1 * -y2) == Cofactor(y1 * y2)
  {
    MirroredSigns(y1, y2, q, yp, y0, k);
    EqAdd(0, 0, yp * (1 - k), y1 * y2 + q);
    EqAdd(0, 0, y0 * (1 + k), y1 * y2 - q);
    MirroredCofactor(y1 * y2);
  }

  lemma NegateFactor(a: int, b: int)
    ensures a * -b == -(a * b) && (-a) * b == -(a * b) && (-a) * -b == a * b
  {
  }

  lemma MirroredSigns(y1: int, y2: int, q: int, yp: int, y0: int, k: int)
    ensures y1 * -y2 == -(y1 * y2) && D * (y1 * -y2) * -q == D * (y1 * y2) * q
    ensures (-q) * (-q) == q * q && (-y2) * (-y2) == y2 * y2
    ensures (-yp) * (1 - k) == 0 - yp * (1 - k) && (-y0) * (1 + k) == 0 - y0 * (1 + k)
  {
    NegateFactor(y1, y2);
    NegateFactor(D, y1 * y2);
    NegateFactor(D * (y1 * y2), q);
    NegateFactor(q, q);
    NegateFactor(y2, y2);
    NegateFactor(yp, 1 - k);
    NegateFactor(y0, 1 + k);
  }

  lemma MirroredCofactor(p: int)
    ensures Cofactor(-p) == Cofactor(p)
  {
    SameCofactor(p, D);
    assert D * -p == -(D * p);
    NegatedSquare(D * p + 1);
  }

  /** The relation between the sum, the difference and the two summands, in y alone. */
  lemma DifferentialIdentity(y1: int, y2: int, q: int, yp: int, y0: int, k: int)
    requires FieldFacts() && !Eq(1 - k, 0) && !Eq(1 + k, 0)
    requires k == D * (y1 * y2) * q && Eq(yp * (1 - k), y1 * y2 + q) && Eq(y0 * (1 + k), y1 * y2 - q)
    requires Eq((q * q) * Forms(y1, y2), (y1 * y1 - 1) * (y2 * y2 - 1))
    ensures Eq(((1 + yp) * (1 + y0)) * ((y1 - y2) * (y1 - y2)), ((1 - yp) * (1 - y0)) * ((y1 + y2) * (y1 + y2)))
  {
    HalfIdentity(y1, y2, q, yp, y0, k);
    Mirrored(y1, y2, q, yp, y0, k);
    HalfIdentity(y1, -y2, -q, -yp, -y0, k);
    var l := (1 - k) * (1 + k);
    FormsNotZero(y1, y2);
    ProductNonzero(1 - k, 1 + k);
    ProductNonzero(l, Forms(y1, y2));
    Eliminate((1 + yp) * (1 + y0), (1 - yp) * (1 - y0), l * Forms(y1, y2),
              (y1 + y2) * (y1 + y2), (y1 - y2) * (y1 - y2), Cofactor(y1 * y2));
  }

  /** For `h = g + g0`. */
  lemma DifferentialLaw<G(!new)>(c: Curve<G>, g: G, g0: G)
    requires FieldFacts() && EdwardsGroup(c)
    ensures var h := c.group.add(g, g0); var yp, y0, y1, y2 := c.ay(c.group.add(g, h)), c.ay(g0), c.ay(g), c.ay(h);
            Eq(((1 + yp) * (1 + y0)) * ((y1 - y2) * (y1 - y2)), ((1 - yp) * (1 - y0)) * ((y1 + y2) * (y1 + y2)))
  {
    var h := c.group.add(g, g0);
    var x1, y1, x2, y2 := c.ax(g), c.ay(g), c.ax(h), c.ay(h);
    assert ElementAt(c, g) && ElementAt(c, h) && AddsAt(c, g, h);
    DifferenceLaw(c, g, g0);
    CrossOfProducts(x1, y1, x2, y2);
    CoordinatesSolved(x1, y1, x2, y2);
    DifferentialIdentity(y1, y2, x1 * x2, c.ay(c.group.add(g, h)), c.ay(g0), Cross(x1, y1, x2, y2));
  }
}
