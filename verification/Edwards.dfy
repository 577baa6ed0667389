/** The twisted Edwards curve of Ed25519: the projective addition the code computes and what it represents. */
module Edwards {
  import opened Basics
  import opened Field
  import opened Groups

  /** `_d` */
  const D: int := Rem(-121665 * Inv(121666))

  /** Extended coordinates: a point with affine coordinates `x / z` and `y / z`, and `t = x * y / z`. */
  datatype Point = Point(x: int, y: int, z: int, t: int)

  const IDENTITY := Point(0, 1, 1, 0)

  /** `_edwards_add` */
  function EdwardsAdd(p: Point, q: Point): Point {
    var a := Rem((p.y - p.x) * (q.y - q.x));
    var b := Rem((p.y + p.x) * (q.y + q.x));
    var c := Rem(p.t * 2 * D * q.t);
    var dd := Rem(p.z * 2 * q.z);
    Combine(b - a, dd - c, dd + c, b + a)
  }

  function Combine(e: int, f: int, g: int, h: int): Point {
    Point(Rem(e * f), Rem(g * h), Rem(f * g), Rem(e * h))
  }

  // ---------------------------------------------------------------- the group the curve is assumed to form

  predicate OnCurve(x: int, y: int) {
    Eq(y * y - x * x, 1 + Cross(x, y, x, y))
  }

  /** `d x1 x2 y1 y2` */
  function Cross(x1: int, y1: int, x2: int, y2: int): int {
    D * (x1 * y1) * (x2 * y2)
  }

  /** A group whose elements have affine coordinates; `at` gives back the element with given coordinates. */
  datatype Curve<!G> = Curve(group: Group<G>, ax: G -> int, ay: G -> int, at: (int, int) -> G)

  /** The affine addition law for twisted Edwards curves, with its denominators never zero. */
  predicate AddsAt<G>(c: Curve<G>, g: G, h: G) {
    var k := Cross(c.ax(g), c.ay(g), c.ax(h), c.ay(h));
    var s := c.group.add(g, h);
    && !Eq(1 + k, 0) && !Eq(1 - k, 0)
    && Eq(c.ax(s) * (1 + k), c.ax(g) * c.ay(h) + c.ax(h) * c.ay(g))
    && Eq(c.ay(s) * (1 - k), c.ay(g) * c.ay(h) + c.ax(g) * c.ax(h))
  }

  predicate ElementAt<G>(c: Curve<G>, g: G) {
    0 <= c.ax(g) < P && 0 <= c.ay(g) < P && OnCurve(c.ax(g), c.ay(g))
  }

  predicate SamePlace<G(==)>(c: Curve<G>, g: G, h: G) {
    c.ax(g) == c.ax(h) && c.ay(g) == c.ay(h) ==> g == h
  }

  predicate ReachedAt<G>(c: Curve<G>, x: int, y: int) {
    0 <= x < P && 0 <= y < P && OnCurve(x, y) ==> c.ax(c.at(x, y)) == x && c.ay(c.at(x, y)) == y
  }

  /** The points of the curve form an abelian group under the affine addition law. */
  ghost predicate EdwardsGroup<G(!new)>(c: Curve<G>) {
    && Abelian(c.group)
    && (forall g :: ElementAt(c, g))
    && (forall g, h :: AddsAt(c, g, h))
    && (forall g, h :: SamePlace(c, g, h))
    && (forall x, y :: ReachedAt(c, x, y))
    && c.ax(c.group.zero) == 0 && c.ay(c.group.zero) == 1
  }

  /** `p` holds the coordinates of `g`. */
  predicate Represents<G>(c: Curve<G>, p: Point, g: G) {
    && !Eq(p.z, 0)
    && Eq(p.x, c.ax(g) * p.z)
    && Eq(p.y, c.ay(g) * p.z)
    && Eq(p.t, c.ax(g) * c.ay(g) * p.z)
  }

  // ---------------------------------------------------------------- the projective formula is the affine law

  lemma Expand(x1: int, y1: int, x2: int, y2: int)
    ensures (y1 + x1) * (y2 + x2) - (y1 - x1) * (y2 - x2) == 2 * (x1 * y2 + x2 * y1)
    ensures (y1 + x1) * (y2 + x2) + (y1 - x1) * (y2 - x2) == 2 * (y1 * y2 + x1 * x2)
  {
  }

  /** A product of two scaled sums. */
  lemma ScaledProduct(p: int, q: int, a: int, b: int, z: int, w: int)
    requires Eq(p, a * z) && Eq(q, b * w)
    ensures Eq(Rem(p * q), (a * b) * (z * w))
  {
    EqMul(p, a * z, q, b * w);
    Interchange(a, z, b, w);
    Reduced(p * q);
  }

  lemma ScaledSum(y: int, x: int, ay: int, ax: int, z: int)
    requires Eq(y, ay * z) && Eq(x, ax * z)
    ensures Eq(y - x, (ay - ax) * z) && Eq(y + x, (ay + ax) * z)
  {
    EqAdd(y, ay * z, x, ax * z);
    Distribute(ay, ax, z);
  }

  /** The two combinations `e = b - a` and `h = b + a`. */
  lemma SumAndDifference(p: Point, q: Point, x1: int, y1: int, x2: int, y2: int)
    requires Eq(p.x, x1 * p.z) && Eq(p.y, y1 * p.z) && Eq(q.x, x2 * q.z) && Eq(q.y, y2 * q.z)
    ensures var a, b, v := Rem((p.y - p.x) * (q.y - q.x)), Rem((p.y + p.x) * (q.y + q.x)), 2 * (p.z * q.z);
            Eq(b - a, (x1 * y2 + x2 * y1) * v) && Eq(b + a, (y1 * y2 + x1 * x2) * v)
  {
    ScaledSum(p.y, p.x, y1, x1, p.z);
    ScaledSum(q.y, q.x, y2, x2, q.z);
    var w := p.z * q.z;
    var a, b := Rem((p.y - p.x) * (q.y - q.x)), Rem((p.y + p.x) * (q.y + q.x));
    var m, n := (y1 - x1) * (y2 - x2), (y1 + x1) * (y2 + x2);
    ScaledProduct(p.y - p.x, q.y - q.x, y1 - x1, y2 - x2, p.z, q.z);
    ScaledProduct(p.y + p.x, q.y + q.x, y1 + x1, y2 + x2, p.z, q.z);
    ScaledSum(b, a, n, m, w);
    Expand(x1, y1, x2, y2);
    Regroup(x1 * y2 + x2 * y1, 2, w);
    Regroup(y1 * y2 + x1 * x2, 2, w);
  }

  lemma TwiceBoth(z: int, w: int)
    ensures z * 2 * w == 2 * (z * w)
  {
  }

  /** The two combinations `f = dd - c` and `g = dd + c`. */
  lemma Denominators(p: Point, q: Point, x1: int, y1: int, x2: int, y2: int)
    requires Eq(p.t, x1 * y1 * p.z) && Eq(q.t, x2 * y2 * q.z)
    ensures var c, dd, v, k := Rem(p.t * 2 * D * q.t), Rem(p.z * 2 * q.z), 2 * (p.z * q.z), Cross(x1, y1, x2, y2);
            Eq(dd - c, (1 - k) * v) && Eq(dd + c, (1 + k) * v)
  {
    var w := p.z * q.z;
    var c, dd, k := Rem(p.t * 2 * D * q.t), Rem(p.z * 2 * q.z), Cross(x1, y1, x2, y2);
    TwiceBoth(p.z, q.z);
    Reduced(p.z * 2 * q.z);
    EqMul(p.t, (x1 * y1) * p.z, q.t, (x2 * y2) * q.z);
    Interchange(x1 * y1, p.z, x2 * y2, q.z);
    EqTimes(p.t * q.t, ((x1 * y1) * (x2 * y2)) * w, 2 * D);
    CrossTerm(p.t, q.t, x1 * y1, x2 * y2, w);
    Reduced(p.t * 2 * D * q.t);
    ScaledSum(dd, c, 1, k, 2 * w);
  }

  lemma CrossTerm(t: int, u: int, a: int, b: int, w: int)
    ensures t * 2 * D * u == (t * u) * (2 * D)
    ensures ((a * b) * w) * (2 * D) == (D * a * b) * (2 * w)
  {
    DoubleInside(t, D, u);
    Regroup(D, a, b);
    DoubleAcross(a * b, w, D);
  }

  lemma DoubleInside(t: int, d: int, u: int)
    ensures t * 2 * d * u == (t * u) * (2 * d)
  {
    Rotate(t * 2, d, u);
    Rotate(t, 2, u);
    Regroup(t * u, 2, d);
  }

  lemma DoubleAcross(p: int, w: int, d: int)
    ensures (p * w) * (2 * d) == (d * p) * (2 * w)
  {
    Interchange(p, w, d, 2);
    Commute(p, d);
    Commute(d, 2);
    Commute(w, 2);
  }

  /** The affine law over a denominator `m`, scaled by `v = 2 z w`. */
  lemma ScaleLaw(x: int, m: int, s: int, z: int, w: int)
    requires Fermat() && Eq(x * m, s) && !Eq(m, 0) && !Eq(z, 0) && !Eq(w, 0)
    ensures Eq(s * (2 * (z * w)), x * (m * (2 * (z * w)))) && !Eq(m * (2 * (z * w)), 0)
  {
    var v := 2 * (z * w);
    ProductNonzero(z, w);
    TwoIsNotZero();
    ProductNonzero(2, z * w);
    ProductNonzero(m, v);
    EqTimes(x * m, s, v);
    Regroup(x, m, v);
  }

  /** `e`, `f`, `g`, `h` of the sum at affine `x`, `y`, up to the common factors `m` and `n`. */
  predicate Factored(p: Point, q: Point, x: int, y: int, m: int, n: int) {
    var a, b := Rem((p.y - p.x) * (q.y - q.x)), Rem((p.y + p.x) * (q.y + q.x));
    var c, dd := Rem(p.t * 2 * D * q.t), Rem(p.z * 2 * q.z);
    Eq(b - a, x * m) && Eq(dd - c, n) && Eq(dd + c, m) && Eq(b + a, y * n)
  }

  lemma Factor(p: Point, q: Point, x1: int, y1: int, x2: int, y2: int, x: int, y: int) returns (m: int, n: int)
    requires Fermat() && !Eq(p.z, 0) && !Eq(q.z, 0)
    requires Eq(p.x, x1 * p.z) && Eq(p.y, y1 * p.z) && Eq(p.t, x1 * y1 * p.z)
    requires Eq(q.x, x2 * q.z) && Eq(q.y, y2 * q.z) && Eq(q.t, x2 * y2 * q.z)
    requires var k := Cross(x1, y1, x2, y2); !Eq(1 + k, 0) && !Eq(1 - k, 0)
    requires Eq(x * (1 + Cross(x1, y1, x2, y2)), x1 * y2 + x2 * y1)
    requires Eq(y * (1 - Cross(x1, y1, x2, y2)), y1 * y2 + x1 * x2)
    ensures !Eq(m, 0) && !Eq(n, 0) && Factored(p, q, x, y, m, n)
  {
    var k := Cross(x1, y1, x2, y2);
    m, n := (1 + k) * (2 * (p.z * q.z)), (1 - k) * (2 * (p.z * q.z));
    SumAndDifference(p, q, x1, y1, x2, y2);
    Denominators(p, q, x1, y1, x2, y2);
    ScaleLaw(x, 1 + k, x1 * y2 + x2 * y1, p.z, q.z);
    ScaleLaw(y, 1 - k, y1 * y2 + x1 * x2, p.z, q.z);
  }

  /** Adding representatives adds what they represent. */
  lemma EdwardsAddAdds<G(!new)>(c: Curve<G>, p: Point, q: Point, g: G, h: G)
    requires Fermat() && EdwardsGroup(c) && Represents(c, p, g) && Represents(c, q, h)
    ensures Represents(c, EdwardsAdd(p, q), c.group.add(g, h))
  {
    var s := c.group.add(g, h);
    assert AddsAt(c, g, h);
    var m, n := Factor(p, q, c.ax(g), c.ay(g), c.ax(h), c.ay(h), c.ax(s), c.ay(s));
    Assembled(c, p, q, s, m, n);
  }

  lemma Assembled<G>(c: Curve<G>, p: Point, q: Point, s: G, m: int, n: int)
    requires Fermat() && !Eq(m, 0) && !Eq(n, 0) && Factored(p, q, c.ax(s), c.ay(s), m, n)
    ensures Represents(c, EdwardsAdd(p, q), s)
  {
    var a, b := Rem((p.y - p.x) * (q.y - q.x)), Rem((p.y + p.x) * (q.y + q.x));
    var cc, dd := Rem(p.t * 2 * D * q.t), Rem(p.z * 2 * q.z);
    assert EdwardsAdd(p, q) == Combine(b - a, dd - cc, dd + cc, b + a);
    CombineRepresents(c, b - a, dd - cc, dd + cc, b + a, s, m, n);
  }

  lemma CombineRepresents<G>(c: Curve<G>, e: int, f: int, g: int, h: int, s: G, m: int, n: int)
    requires Fermat() && !Eq(m, 0) && !Eq(n, 0)
    requires Eq(e, c.ax(s) * m) && Eq(f, n) && Eq(g, m) && Eq(h, c.ay(s) * n)
    ensures Represents(c, Combine(e, f, g, h), s)
  {
    FourProducts(e, f, g, h, c.ax(s), c.ay(s), m, n);
  }

  lemma TwoIsNotZero()
    ensures !Eq(2, 0) && !Eq(4, 0) && !Eq(1, 0)
  {
  }

  /** The four products of the result, once `e`, `f`, `g`, `h` are known up to the common factors `m` and `n`. */
  lemma FourProducts(e: int, f: int, g: int, h: int, x: int, y: int, m: int, n: int)
    requires Fermat() && !Eq(m, 0) && !Eq(n, 0)
    requires Eq(e, x * m) && Eq(f, n) && Eq(g, m) && Eq(h, y * n)
    ensures !Eq(Rem(f * g), 0)
    ensures Eq(Rem(e * f), x * Rem(f * g))
    ensures Eq(Rem(g * h), y * Rem(f * g))
    ensures Eq(Rem(e * h), x * y * Rem(f * g))
  {
    var z := Rem(f * g);
    ReducedProduct(f, g, n, m);
    ProductNonzero(n, m);
    ReducedProduct(e, f, x * m, n);
    ReducedProduct(g, h, m, y * n);
    ReducedProduct(e, h, x * m, y * n);
    EqTimes(z, n * m, x);
    EqTimes(z, n * m, y);
    EqTimes(z, n * m, x * y);
    Rearrange(x, y, m, n, z);
  }

  lemma ReducedProduct(e: int, f: int, a: int, b: int)
    requires Eq(e, a) && Eq(f, b)
    ensures Eq(Rem(e * f), a * b)
  {
    EqMul(e, a, f, b);
    Reduced(e * f);
  }

  lemma Rearrange(x: int, y: int, m: int, n: int, z: int)
    ensures (x * m) * n == (n * m) * x && m * (y * n) == (n * m) * y && (x * m) * (y * n) == (n * m) * (x * y)
    ensures z * x == x * z && z * y == y * z && z * (x * y) == x * y * z
  {
    Interchange(x, m, y, n);
    Regroup(x, m, n);
    Regroup(y, n, m);
  }

  lemma IdentityRepresentsZero<G(!new)>(c: Curve<G>)
    requires EdwardsGroup(c)
    ensures Represents(c, IDENTITY, c.group.zero)
  {
    TwoIsNotZero();
  }

  /** Representatives of one element are what `_point_equal` compares. */
  predicate PointEqual(p: Point, q: Point) {
    Rem(p.x * q.z - q.x * p.z) == 0 && Rem(p.y * q.z - q.y * p.z) == 0
  }

  lemma CrossMultiplied(x: int, a: int, z: int, u: int, b: int, w: int)
    requires Fermat() && Eq(x, a * z) && Eq(u, b * w) && !Eq(z, 0) && !Eq(w, 0)
    ensures Rem(x * w - u * z) == 0 <==> Eq(a, b)
  {
    EqTimes(x, a * z, w);
    EqTimes(u, b * w, z);
    Regroup(a, z, w);
    Regroup(b, w, z);
    EqZero(x * w, u * z);
    ProductNonzero(z, w);
    assert z * w == w * z;
    if Eq(a, b) {
      EqTimes(a, b, z * w);
    }
    if Eq(a * (z * w), b * (z * w)) {
      Cancel(a, b, z * w);
    }
    Small(0);
  }

  /** `_point_equal` decides equality of the elements. */
  lemma PointEqualMeans<G(!new)>(c: Curve<G>, p: Point, q: Point, g: G, h: G)
    requires Fermat() && EdwardsGroup(c) && Represents(c, p, g) && Represents(c, q, h)
    ensures PointEqual(p, q) <==> g == h
  {
    CrossMultiplied(p.x, c.ax(g), p.z, q.x, c.ax(h), q.z);
    CrossMultiplied(p.y, c.ay(g), p.z, q.y, c.ay(h), q.z);
    assert ElementAt(c, g) && ElementAt(c, h);
    Small(c.ax(g));
    Small(c.ax(h));
    Small(c.ay(g));
    Small(c.ay(h));
    assert SamePlace(c, g, h);
  }

  // ---------------------------------------------------------------- double and add

  /** `_scalarmult`, with the accumulator as an argument. */
  function DoubleAndAdd(q: Point, p: Point, e: nat): Point
    decreases e
  {
    if e == 0 then q
    else DoubleAndAdd(if e % 2 == 1 then EdwardsAdd(q, p) else q, EdwardsAdd(p, p), e / 2)
  }

  function ScalarMult(p: Point, e: nat): Point {
    DoubleAndAdd(IDENTITY, p, e)
  }

  method ScalarMultLoop(p: Point, e: nat) returns (q: Point)
    ensures q == ScalarMult(p, e)
  {
    q := IDENTITY;
    var base, rest := p, e;
    while rest > 0
      invariant DoubleAndAdd(q, base, rest) == ScalarMult(p, e)
    {
      if rest % 2 == 1 {
        q := EdwardsAdd(q, base);
      }
      base := EdwardsAdd(base, base);
      rest := rest / 2;
    }
  }

  lemma {:induction false} DoubleAndAddAdds<G(!new)>(c: Curve<G>, q: Point, p: Point, e: nat, acc: G, g: G)
    requires Fermat() && EdwardsGroup(c) && Represents(c, q, acc) && Represents(c, p, g)
    ensures Represents(c, DoubleAndAdd(q, p, e), c.group.add(acc, Mul(c.group, e, g)))
    decreases e
  {
    if e == 0 {
      MulOnce(c.group, acc);
    } else {
      var gr := c.group;
      EdwardsAddAdds(c, p, p, g, g);
      MulHalved(gr, e, g);
      if e % 2 == 1 {
        EdwardsAddAdds(c, q, p, acc, g);
        DoubleAndAddAdds(c, EdwardsAdd(q, p), EdwardsAdd(p, p), e / 2, gr.add(acc, g), gr.add(g, g));
        assert Mul(gr, e, g) == gr.add(Mul(gr, e - 1, g), g);
        assert LawsAt(gr, acc, g, Mul(gr, e - 1, g)) && LawsAt(gr, g, Mul(gr, e - 1, g), g);
      } else {
        DoubleAndAddAdds(c, q, EdwardsAdd(p, p), e / 2, acc, gr.add(g, g));
      }
    }
  }

  /** Double-and-add computes the multiple, for every scalar. */
  lemma ScalarMultMultiplies<G(!new)>(c: Curve<G>, p: Point, e: nat, g: G)
    requires Fermat() && EdwardsGroup(c) && Represents(c, p, g)
    ensures Represents(c, ScalarMult(p, e), Mul(c.group, e, g))
  {
    IdentityRepresentsZero(c);
    DoubleAndAddAdds(c, IDENTITY, p, e, c.group.zero, g);
    MulOnce(c.group, Mul(c.group, e, g));
  }
}
