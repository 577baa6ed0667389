/**
 * The x-only formulas of the X25519 ladder, derived from the Edwards addition law: for a pair `(x : z)` the quotient
 * `(x - z) / (x + z)` is the Edwards `y` coordinate, so both formulas can be checked against `y` alone.
 */
module Montgomery {
  import opened Basics
  import opened Edwards
  import opened Field
  import opened Groups
  import opened Numbers
  import opened PointCodec

  /** `_A24` */
  const A24 := 121665

  /** A projective u coordinate. */
  datatype Pair = Pair(x: int, z: int)

  /** The new `x2, z2` of one ladder step. */
  function Doubled(p: Pair): Pair {
    var a, b := Rem(p.x + p.z), Rem(p.x - p.z);
    FromSquares(Rem(a * a), Rem(b * b))
  }

  function FromSquares(aa: int, bb: int): Pair {
    var e := Rem(aa - bb);
    Pair(Rem(aa * bb), Rem(e * (aa + A24 * e)))
  }

  /** The new `x3, z3` of one ladder step. */
  function DiffAdded(p: Pair, q: Pair, x1: int): Pair {
    var a, b := Rem(p.x + p.z), Rem(p.x - p.z);
    var c, d := Rem(q.x + q.z), Rem(q.x - q.z);
    FromCross(Rem(d * a), Rem(c * b), x1)
  }

  function FromCross(da: int, cb: int, x1: int): Pair {
    var x, z := Rem(da + cb), Rem(da - cb);
    Pair(Rem(x * x), Rem(Rem(z * z) * x1))
  }

  /** The u coordinate of an element, as `_ed25519_pk_to_curve25519` computes it. */
  function U<G>(c: Curve<G>, g: G): int {
    UOf(c.ay(g))
  }

  function UOf(y: int): int {
    Rem((1 + y) * Inv(Rem(1 - y)))
  }

  /** `p` holds the u coordinate of `g`. */
  predicate Holds<G>(c: Curve<G>, p: Pair, g: G) {
    HoldsY(p, c.ay(g))
  }

  predicate HoldsY(p: Pair, y: int) {
    !Eq(p.x + p.z, 0) && Eq(p.x - p.z, y * (p.x + p.z))
  }

  // ---------------------------------------------------------------- congruence bookkeeping

  lemma Combination(a: int, a': int, b: int, b': int, c: int, c': int, i: int, j: int, k: int)
    requires Eq(a, a') && Eq(b, b') && Eq(c, c')
    ensures Eq(i * a + j * b + k * c, i * a' + j * b' + k * c')
  {
    EqTimes(a, a', i);
    EqTimes(b, b', j);
    EqTimes(c, c', k);
    EqAdd(i * a, i * a', j * b, j * b');
    EqAdd(i * a + j * b, i * a' + j * b', k * c, k * c');
  }

  lemma EqSquare(a: int, b: int)
    requires Eq(a, b)
    ensures Eq(a * a, b * b)
  {
    EqMul(a, b, a, b);
  }

  lemma Halve(x: int, z: int, y: int)
    requires Eq(x - z, y * (x + z))
    ensures Eq(2 * x, (x + z) * (1 + y)) && Eq(2 * z, (x + z) * (1 - y))
  {
    var s := x + z;
    EqAdd(s, s, x - z, y * s);
    OneTimes(s, y);
  }

  lemma OneTimes(s: int, y: int)
    ensures s * (1 + y) == s + y * s && s * (1 - y) == s - y * s
  {
  }

  // ---------------------------------------------------------------- doubling

  lemma PIsLarge()
    ensures P > 1_000_000
  {
    PIs();
    Pow2Grows(24, 255);
    Pow2Byte(16);
    Pow2Byte(8);
    Pow2Byte(0);
  }

  /** `d * 121666 = -121665` */
  lemma DRatio()
    requires Fermat()
    ensures Eq(D * (A24 + 1), -A24) && !Eq(A24 + 1, 0)
  {
    PIsLarge();
    QuotientSolves(-A24, A24 + 1);
    EqTimes(D, -A24 * Inv(A24 + 1), A24 + 1);
  }

  /** The y coordinate of a doubled element, from y alone. */
  lemma DoubleY<G(!new)>(c: Curve<G>, g: G)
    requires FieldFacts() && EdwardsGroup(c)
    ensures var yy, y3 := c.ay(g) * c.ay(g), c.ay(c.group.add(g, g));
            Eq(y3 * (1 + 2 * (D * yy) - D * (yy * yy)), D * (yy * yy) + 2 * yy - 1)
    ensures var yy := c.ay(g) * c.ay(g); !Eq(1 + 2 * (D * yy) - D * (yy * yy), 0)
  {
    var x, y := c.ax(g), c.ay(g);
    assert AddsAt(c, g, g) && ElementAt(c, g);
    var y3, k := c.ay(c.group.add(g, g)), Cross(x, y, x, y);
    CurveSolved(x, y);
    DenominatorNotZero(y);
    Regroup(D, y, y);
    DoubleYFrom(x * x, y * y, k, y3, D * (y * y) + 1);
  }

  lemma DoubleYFrom(xx: int, yy: int, k: int, y3: int, f: int)
    requires Fermat() && f == D * yy + 1 && !Eq(f, 0) && !Eq(1 - k, 0)
    requires Eq(yy - xx, 1 + k) && Eq(xx * f, yy - 1) && Eq(y3 * (1 - k), yy + xx)
    ensures Eq(y3 * (1 + 2 * (D * yy) - D * (yy * yy)), D * (yy * yy) + 2 * yy - 1)
    ensures !Eq(1 + 2 * (D * yy) - D * (yy * yy), 0)
  {
    var d1 := 1 + 2 * (D * yy) - D * (yy * yy);
    OneMinusK(xx, yy, k, f);
    ProductNonzero(1 - k, f);
    SumTimesF(xx, yy, f);
    EqTimes(y3 * (1 - k), yy + xx, f);
    Regroup(y3, 1 - k, f);
    EqTimes((1 - k) * f, d1, y3);
    Commute(y3, (1 - k) * f);
    Commute(y3, d1);
  }

  lemma OneMinusK(xx: int, yy: int, k: int, f: int)
    requires f == D * yy + 1 && Eq(yy - xx, 1 + k) && Eq(xx * f, yy - 1)
    ensures Eq((1 - k) * f, 1 + 2 * (D * yy) - D * (yy * yy))
  {
    EqAdd(2, 2, yy - xx, 1 + k);
    EqTimes(1 - k, 2 - yy + xx, f);
    EqAdd((2 - yy) * f, (2 - yy) * f, xx * f, yy - 1);
    FirstIdentity(xx, yy, f);
  }

  lemma FirstIdentity(xx: int, yy: int, f: int)
    requires f == D * yy + 1
    ensures (2 - yy + xx) * f == (2 - yy) * f + xx * f
    ensures (2 - yy) * f + (yy - 1) == 1 + 2 * (D * yy) - D * (yy * yy)
    ensures (yy + xx) * f == yy * f + xx * f
    ensures yy * f + (yy - 1) == D * (yy * yy) + 2 * yy - 1
  {
    Distribute(2 - yy, xx, f);
    Distribute(yy, xx, f);
    Distribute(2, yy, f);
    TimesF(yy);
  }

  lemma TimesF(yy: int)
    ensures yy * (D * yy + 1) == D * (yy * yy) + yy
  {
    Regroup(D, yy, yy);
    Commute(D * yy, yy);
    Distribute(D * yy, 1, yy);
    Commute(yy, D * yy + 1);
  }

  lemma SumTimesF(xx: int, yy: int, f: int)
    requires f == D * yy + 1 && Eq(xx * f, yy - 1)
    ensures Eq((yy + xx) * f, D * (yy * yy) + 2 * yy - 1)
  {
    EqAdd(yy * f, yy * f, xx * f, yy - 1);
    FirstIdentity(xx, yy, f);
  }

  /** Numerator and denominator of the doubled y, with `a : b : c` for `y^4 : y^2 : 1`. */
  function Num(a: int, b: int, c: int): int {
    -A24 * a + 2 * (A24 + 1) * b - (A24 + 1) * c
  }

  function Den(a: int, b: int, c: int): int {
    A24 * a - 2 * A24 * b + (A24 + 1) * c
  }

  lemma Scale(a: int, b: int, c: int, v: int)
    ensures Num(a * v, b * v, c * v) == Num(a, b, c) * v && Den(a * v, b * v, c * v) == Den(a, b, c) * v
  {
    Collect(-A24, a, 2 * (A24 + 1), b, -(A24 + 1), c, v);
    Collect(A24, a, -2 * A24, b, A24 + 1, c, v);
  }

  lemma Collect(i: int, a: int, j: int, b: int, k: int, c: int, v: int)
    ensures i * (a * v) + j * (b * v) + k * (c * v) == (i * a + j * b + k * c) * v
  {
    Regroup(i, a, v);
    Regroup(j, b, v);
    Regroup(k, c, v);
    Distribute(i * a, j * b, v);
    Distribute(i * a + j * b, k * c, v);
  }

  lemma Congruent(a: int, a': int, b: int, b': int, c: int, c': int)
    requires Eq(a, a') && Eq(b, b') && Eq(c, c')
    ensures Eq(Num(a, b, c), Num(a', b', c')) && Eq(Den(a, b, c), Den(a', b', c'))
  {
    NumCongruent(a, a', b, b', c, c');
    Combination(a, a', b, b', c, c', A24, -2 * A24, A24 + 1);
  }

  lemma NumCongruent(a: int, a': int, b: int, b': int, c: int, c': int)
    requires Eq(a, a') && Eq(b, b') && Eq(c, c')
    ensures Eq(Num(a, b, c), Num(a', b', c'))
  {
    Combination(a, a', b, b', c, c', -A24, 2 * (A24 + 1), -(A24 + 1));
  }

  /** The integer identity behind the doubling formula. */
  lemma DoublingIdentity(aa: int, bb: int)
    ensures var e := aa - bb; var z := e * (aa + A24 * e);
            && aa * bb - z == Num(bb * bb, aa * bb, aa * aa)
            && aa * bb + z == Den(bb * bb, aa * bb, aa * aa)
  {
    var e := aa - bb;
    assert e * (aa + A24 * e) == e * aa + A24 * (e * e);
    assert e * aa == aa * aa - aa * bb;
    assert e * e == aa * aa - 2 * (aa * bb) + bb * bb;
  }

  /** With `bb = yy aa`, both are multiples of `aa^2`. */
  lemma DoublingScaled(aa: int, bb: int, yy: int)
    requires Eq(bb, yy * aa)
    ensures Eq(Num(bb * bb, aa * bb, aa * aa), Num(yy * yy, yy, 1) * (aa * aa))
    ensures Eq(Den(bb * bb, aa * bb, aa * aa), Den(yy * yy, yy, 1) * (aa * aa))
  {
    var v := aa * aa;
    EqSquare(bb, yy * aa);
    Interchange(yy, aa, yy, aa);
    EqTimes(bb, yy * aa, aa);
    Regroup(yy, aa, aa);
    Commute(aa, bb);
    Congruent(bb * bb, (yy * yy) * v, aa * bb, yy * v, v, 1 * v);
    Scale(yy * yy, yy, 1, v);
  }

  /** The doubled y coordinate with the curve constant cleared. */
  lemma ClearConstant(yy: int, y3: int)
    requires Fermat()
    requires Eq(y3 * (1 + 2 * (D * yy) - D * (yy * yy)), D * (yy * yy) + 2 * yy - 1)
    requires !Eq(1 + 2 * (D * yy) - D * (yy * yy), 0)
    ensures Eq(y3 * Den(yy * yy, yy, 1), Num(yy * yy, yy, 1)) && !Eq(Den(yy * yy, yy, 1), 0)
  {
    var m, d1, n1 := A24 + 1, 1 + 2 * (D * yy) - D * (yy * yy), D * (yy * yy) + 2 * yy - 1;
    DRatio();
    ClearBoth(yy);
    ProductNonzero(d1, m);
    EqTimes(y3 * d1, n1, m);
    Regroup(y3, d1, m);
    EqTimes(d1 * m, Den(yy * yy, yy, 1), y3);
    Commute(y3, d1 * m);
    Commute(y3, Den(yy * yy, yy, 1));
  }

  lemma ClearBoth(yy: int)
    requires Fermat()
    ensures Eq((1 + 2 * (D * yy) - D * (yy * yy)) * (A24 + 1), Den(yy * yy, yy, 1))
    ensures Eq((D * (yy * yy) + 2 * yy - 1) * (A24 + 1), Num(yy * yy, yy, 1))
  {
    var m, w := A24 + 1, D * (A24 + 1);
    DRatio();
    EqTimes(w, -A24, yy);
    EqTimes(w, -A24, yy * yy);
    Rotate(D, m, yy);
    Rotate(D, m, yy * yy);
    ClearDen(yy, w * yy, w * (yy * yy));
    ClearNum(yy, w * (yy * yy));
  }

  lemma ClearDen(yy: int, a: int, b: int)
    requires Eq(a, -A24 * yy) && Eq(b, -A24 * (yy * yy))
    ensures Eq(A24 + 1 + 2 * a - b, Den(yy * yy, yy, 1))
  {
    EqAdd(a, -A24 * yy, a, -A24 * yy);
    EqAdd(a + a, -A24 * yy + -A24 * yy, b, -A24 * (yy * yy));
    EqAdd(A24 + 1, A24 + 1, a + a - b, -A24 * yy + -A24 * yy - -A24 * (yy * yy));
  }

  lemma ClearNum(yy: int, b: int)
    requires Eq(b, -A24 * (yy * yy))
    ensures Eq(b + 2 * (A24 + 1) * yy - (A24 + 1), Num(yy * yy, yy, 1))
  {
    var t := 2 * (A24 + 1) * yy - (A24 + 1);
    EqAdd(b, -A24 * (yy * yy), t, t);
  }

  /** Doubling a held pair holds the doubled element. */
  lemma DoubledHolds<G(!new)>(c: Curve<G>, p: Pair, g: G)
    requires FieldFacts() && EdwardsGroup(c) && Holds(c, p, g)
    ensures Holds(c, Doubled(p), c.group.add(g, g))
  {
    var y := c.ay(g);
    DoubleY(c, g);
    ClearConstant(y * y, c.ay(c.group.add(g, g)));
    var s, t := p.x + p.z, p.x - p.z;
    var aa, bb := Rem(Rem(s) * Rem(s)), Rem(Rem(t) * Rem(t));
    SquaredSums(s, t, y);
    FromSquaresHolds(aa, bb, y * y, c.ay(c.group.add(g, g)));
  }

  lemma SquaredSums(s: int, t: int, y: int)
    requires Fermat() && !Eq(s, 0) && Eq(t, y * s)
    ensures var aa, bb := Rem(Rem(s) * Rem(s)), Rem(Rem(t) * Rem(t)); !Eq(aa, 0) && Eq(bb, (y * y) * aa)
  {
    ProductNonzero(s, s);
    SquareReduced(s);
    SquareReduced(t);
    EqSquare(t, y * s);
    Interchange(y, s, y, s);
    EqTimes(Rem(Rem(s) * Rem(s)), s * s, y * y);
    Commute(y * y, s * s);
    Commute(y * y, Rem(Rem(s) * Rem(s)));
  }

  lemma FromSquaresHolds(aa: int, bb: int, yy: int, y3: int)
    requires Fermat() && !Eq(aa, 0) && Eq(bb, yy * aa)
    requires Eq(y3 * Den(yy * yy, yy, 1), Num(yy * yy, yy, 1)) && !Eq(Den(yy * yy, yy, 1), 0)
    ensures HoldsY(FromSquares(aa, bb), y3)
  {
    var den, num, v := Den(yy * yy, yy, 1), Num(yy * yy, yy, 1), aa * aa;
    var e := aa - bb;
    var x, z := aa * bb, e * (aa + A24 * e);
    DoublingIdentity(aa, bb);
    DoublingScaled(aa, bb, yy);
    FromSquaresValue(aa, bb);
    var p := FromSquares(aa, bb);
    EqAdd(p.x, x, p.z, z);
    ProductNonzero(aa, aa);
    ProductNonzero(den, v);
    EqTimes(y3 * den, num, v);
    Regroup(y3, den, v);
    EqTimes(p.x + p.z, den * v, y3);
    Commute(y3, den * v);
    Commute(y3, p.x + p.z);
  }

  lemma FromSquaresValue(aa: int, bb: int)
    ensures var e := aa - bb; Eq(FromSquares(aa, bb).x, aa * bb) && Eq(FromSquares(aa, bb).z, e * (aa + A24 * e))
  {
    var e := aa - bb;
    EqTimes(Rem(e), e, A24);
    EqAdd(aa, aa, A24 * Rem(e), A24 * e);
    EqMul(Rem(e), e, aa + A24 * Rem(e), aa + A24 * e);
  }
}
