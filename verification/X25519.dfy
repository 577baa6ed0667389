/** The X25519 ladder: the loop that carries a swap flag, the textbook ladder, and the multiple they compute. */
module Ladders {
  import opened Clamping
  import opened Differential
  import opened Edwards
  import opened Field
  import opened Groups
  import opened Montgomery
  import opened Numbers
  import opened PointCodec
  import opened Xor

  // ---------------------------------------------------------------- one differential addition

  /** It does not matter which of the two points comes first; this is what makes swapping harmless. */
  lemma DiffSwap(p: Pair, q: Pair, x1: int)
    ensures DiffAdded(p, q, x1) == DiffAdded(q, p, x1)
  {
    var a, b := Rem(p.x + p.z), Rem(p.x - p.z);
    var c, d := Rem(q.x + q.z), Rem(q.x - q.z);
    Commute(d, a);
    Commute(c, b);
    CrossSwap(Rem(d * a), Rem(c * b), x1);
  }

  lemma CrossSwap(m: int, n: int, x1: int)
    ensures FromCross(m, n, x1) == FromCross(n, m, x1)
  {
    SquareReduced(m - n);
    SquareReduced(n - m);
    NegatedSquare(m - n);
  }

  lemma CrossProduct(d: int, a: int, y: int, c: int, w: int)
    requires Eq(d, y * c) && w == c * a
    ensures Eq(Rem(Rem(d) * Rem(a)), y * w)
  {
    EqMul(Rem(d), y * c, Rem(a), a);
    Regroup(y, c, a);
  }

  lemma FromCrossValue(da: int, cb: int, x1: int, s: int, m: int, w: int)
    requires Eq(da + cb, s * w) && Eq(da - cb, m * w)
    ensures Eq(FromCross(da, cb, x1).x, (s * s) * (w * w))
    ensures Eq(FromCross(da, cb, x1).z, ((m * m) * (w * w)) * x1)
  {
    SquareReduced(da + cb);
    SquareReduced(da - cb);
    EqSquare(da + cb, s * w);
    EqSquare(da - cb, m * w);
    Interchange(s, w, s, w);
    Interchange(m, w, m, w);
    EqTimes(Rem(Rem(da - cb) * Rem(da - cb)), (m * m) * (w * w), x1);
  }

  /** `x1` as a quotient of `1 + y0` and `1 - y0`. */
  lemma UQuotient(y0: int, x1: int)
    requires Fermat() && Eq(x1, UOf(y0)) && !Eq(1 - y0, 0)
    ensures Eq(x1 * (1 - y0), 1 + y0)
  {
    PowEq(Rem(1 - y0), 1 - y0, P - 2);
    QuotientSolves(1 + y0, 1 - y0);
    EqTimes(x1, (1 + y0) * Inv(1 - y0), 1 - y0);
  }

  lemma UAtOne(y0: int)
    requires Eq(1 - y0, 0)
    ensures UOf(y0) == 0
  {
    InverseOfZero(Rem(1 - y0));
    Small(0);
  }

  /** Eliminating `y0` in favour of `x1`. */
  lemma EliminateBase(yp: int, y0: int, x1: int, m: int, s: int)
    requires Fermat() && Eq(x1 * (1 - y0), 1 + y0) && !Eq(1 - y0, 0)
    requires Eq(((1 + yp) * (1 + y0)) * m, ((1 - yp) * (1 - y0)) * s)
    ensures Eq((1 + yp) * (m * x1), (1 - yp) * s)
  {
    var n := 1 - y0;
    EqTimes(x1 * n, 1 + y0, (1 + yp) * m);
    Interchange(x1, n, 1 + yp, m);
    Commute(x1 * n, (1 + yp) * m);
    Commute(1 + y0, (1 + yp) * m);
    Rotate(1 + yp, m, 1 + y0);
    Regroup((1 + yp) * m, x1, n);
    Regroup(1 + yp, m, x1);
    Rotate(1 - yp, n, s);
    Cancel((1 + yp) * (m * x1), (1 - yp) * s, n);
  }

  lemma CrossExpanded(x: int, z: int, y: int)
    ensures (1 + y) * z == z + y * z && (1 - y) * x == x - y * x && y * (x + z) == y * x + y * z
  {
  }

  /** Cross-multiplied, sum and difference are proportional. */
  lemma Proportional(x: int, z: int, y: int)
    requires Eq((1 + y) * z, (1 - y) * x)
    ensures Eq(x - z, y * (x + z))
  {
    CrossExpanded(x, z, y);
    EqAdd((1 + y) * z, (1 - y) * x, y * x - z, y * x - z);
  }

  /** From cross-multiplied coordinates to a held pair. */
  lemma HoldsFrom(p: Pair, yp: int)
    requires Fermat() && Eq((1 + yp) * p.z, (1 - yp) * p.x) && !(Eq(p.x, 0) && Eq(p.z, 0))
    ensures HoldsY(p, yp)
  {
    Proportional(p.x, p.z, yp);
    if Eq(p.x + p.z, 0) {
      EqTimes(p.x + p.z, 0, yp);
      Commute(yp, p.x + p.z);
      BothZero(p.x, p.z);
    }
  }

  lemma BothZero(x: int, z: int)
    requires Fermat() && Eq(x + z, 0) && Eq(x - z, 0)
    ensures Eq(x, 0) && Eq(z, 0)
  {
    EqAdd(x + z, 0, x - z, 0);
    TwoIsNotZero();
    NoZeroDivisors(2, x);
    NoZeroDivisors(2, z);
  }

  /** Equal and opposite at once only at y = 0, where the difference has y = 1 or y = -1. */
  lemma NotBothZero<G(!new)>(c: Curve<G>, g: G, g0: G)
    requires FieldFacts() && EdwardsGroup(c) && !Eq(1 - c.ay(g0), 0) && !Eq(1 + c.ay(g0), 0)
    ensures !(Eq(c.ay(c.group.add(g, g0)) + c.ay(g), 0) && Eq(c.ay(c.group.add(g, g0)) - c.ay(g), 0))
  {
    var h := c.group.add(g, g0);
    var x1, y1, x2, y2, y0 := c.ax(g), c.ay(g), c.ax(h), c.ay(h), c.ay(g0);
    if Eq(y2 + y1, 0) && Eq(y2 - y1, 0) {
      BothZero(y2, y1);
      assert ElementAt(c, g) && ElementAt(c, h);
      Small(y1);
      Small(y2);
      Small(0);
      DifferenceLaw(c, g, g0);
      AtYZero(x1, x2, y0);
    }
  }

  lemma OnCurveAtZero(x: int)
    requires OnCurve(x, 0)
    ensures Eq(x * x, -1)
  {
    CurveSolved(x, 0);
    TimesOne(x * x);
  }

  lemma TimesOne(a: int)
    ensures a * (D * 0 * 0 + 1) == a
  {
  }

  lemma AtYZero(x1: int, x2: int, y0: int)
    requires FieldFacts() && OnCurve(x1, 0) && OnCurve(x2, 0)
    requires Eq(y0 * (1 + Cross(x1, 0, x2, 0)), 0 * 0 - x1 * x2)
    ensures Eq(1 - y0, 0) || Eq(1 + y0, 0)
  {
    OnCurveAtZero(x1);
    OnCurveAtZero(x2);
    assert Cross(x1, 0, x2, 0) == 0;
    MinusProduct(x1, x2, y0);
  }

  lemma MinusProduct(x1: int, x2: int, y0: int)
    requires Fermat() && Eq(x1 * x1, -1) && Eq(x2 * x2, -1) && Eq(y0, -(x1 * x2))
    ensures Eq(1 - y0, 0) || Eq(1 + y0, 0)
  {
    var w := x1 * x2;
    EqMul(x1 * x1, -1, x2 * x2, -1);
    Interchange(x1, x1, x2, x2);
    EqSquare(y0, -w);
    NegatedSquare(w);
    EqAdd(1, 1, y0 * y0, 1);
    DifferenceOfSquares(y0);
    NoZeroDivisors(1 - y0, 1 + y0);
  }

  lemma DifferenceOfSquares(y: int)
    ensures (1 - y) * (1 + y) == 1 - y * y
  {
  }

  /** Away from the two elements of order at most 2, one differential addition adds. */
  lemma DiffHolds<G(!new)>(c: Curve<G>, p: Pair, q: Pair, x1: int, g: G, g0: G)
    requires FieldFacts() && EdwardsGroup(c) && Eq(x1, U(c, g0)) && !Eq(x1, 0)
    requires Holds(c, p, g) && Holds(c, q, c.group.add(g, g0))
    ensures Holds(c, DiffAdded(p, q, x1), c.group.add(g, c.group.add(g, g0)))
  {
    var h := c.group.add(g, g0);
    var y1, y2, y0, yp := c.ay(g), c.ay(h), c.ay(g0), c.ay(c.group.add(g, h));
    NotTwoTorsion(y0, x1);
    UQuotient(y0, x1);
    DifferentialLaw(c, g, g0);
    NegatedSquare(y1 - y2);
    EliminateBase(yp, y0, x1, (y2 - y1) * (y2 - y1), (y2 + y1) * (y2 + y1));
    NotBothZero(c, g, g0);
    var a, b, cc, d := p.x + p.z, p.x - p.z, q.x + q.z, q.x - q.z;
    var w := cc * a;
    var da, cb := Rem(Rem(d) * Rem(a)), Rem(Rem(cc) * Rem(b));
    Commute(cc, a);
    Commute(Rem(cc), Rem(b));
    CrossProduct(d, a, y2, cc, w);
    CrossProduct(b, cc, y1, a, w);
    ScaledSum(da, cb, y2, y1, w);
    ProductNonzero(cc, a);
    FromCrossHolds(da, cb, x1, y2 + y1, y2 - y1, w, yp);
  }

  lemma NotTwoTorsion(y0: int, x1: int)
    requires Fermat() && Eq(x1, UOf(y0)) && !Eq(x1, 0)
    ensures !Eq(1 - y0, 0) && !Eq(1 + y0, 0)
  {
    if Eq(1 - y0, 0) {
      UAtOne(y0);
    } else if Eq(1 + y0, 0) {
      EqTimes(1 + y0, 0, Inv(Rem(1 - y0)));
    }
  }

  lemma FromCrossHolds(da: int, cb: int, x1: int, s: int, m: int, w: int, yp: int)
    requires Fermat() && Eq(da + cb, s * w) && Eq(da - cb, m * w)
    requires !Eq(w, 0) && !Eq(x1, 0) && !(Eq(s, 0) && Eq(m, 0))
    requires Eq((1 + yp) * ((m * m) * x1), (1 - yp) * (s * s))
    ensures HoldsY(FromCross(da, cb, x1), yp)
  {
    var p, v := FromCross(da, cb, x1), w * w;
    FromCrossValue(da, cb, x1, s, m, w);
    Rotate(m * m, v, x1);
    EqTimes((1 + yp) * ((m * m) * x1), (1 - yp) * (s * s), v);
    Regroup(1 + yp, (m * m) * x1, v);
    Regroup(1 - yp, s * s, v);
    EqTimes(p.z, ((m * m) * x1) * v, 1 + yp);
    EqTimes(p.x, (s * s) * v, 1 - yp);
    Commute(p.z, 1 + yp);
    Commute(p.x, 1 - yp);
    Commute(((m * m) * x1) * v, 1 + yp);
    Commute((s * s) * v, 1 - yp);
    ProductNonzero(w, w);
    if !Eq(s, 0) {
      ProductNonzero(s, s);
      ProductNonzero(s * s, v);
    } else {
      ProductNonzero(m, m);
      ProductNonzero(m * m, x1);
      ProductNonzero((m * m) * x1, v);
    }
    HoldsFrom(p, yp);
  }

  // ---------------------------------------------------------------- start and end

  lemma StartHolds<G(!new)>(c: Curve<G>, x1: int, g0: G)
    requires FieldFacts() && EdwardsGroup(c) && Eq(x1, U(c, g0)) && !Eq(x1, 0)
    ensures Holds(c, Pair(1, 0), c.group.zero) && Holds(c, Pair(x1, 1), g0)
  {
    var y0 := c.ay(g0);
    TwoIsNotZero();
    NotTwoTorsion(y0, x1);
    UQuotient(y0, x1);
    HoldsFromQuotient(x1, y0);
  }

  lemma HoldsFromQuotient(x1: int, y0: int)
    requires Fermat() && Eq(x1 * (1 - y0), 1 + y0)
    ensures HoldsY(Pair(x1, 1), y0)
  {
    Commute(x1, 1 - y0);
    TwoIsNotZero();
    HoldsFrom(Pair(x1, 1), y0);
  }

  /** Dividing at the end gives the u coordinate, with 0 for the neutral element. */
  lemma AffineIsU(p: Pair, y: int)
    requires Fermat() && HoldsY(p, y)
    ensures Rem(p.x * Inv(p.z)) == UOf(y)
  {
    Halve(p.x, p.z, y);
    TwoIsNotZero();
    var s := p.x + p.z;
    if Eq(1 - y, 0) {
      UAtOne(y);
      EqTimes(1 - y, 0, s);
      Commute(s, 1 - y);
      NoZeroDivisors(2, p.z);
      InverseOfZero(p.z);
      Small(0);
    } else {
      var t := UOf(y);
      UQuotient(y, t);
      ProductNonzero(s, 1 - y);
      TwiceZero(p.z, s * (1 - y));
      EqTimes(t * (1 - y), 1 + y, s);
      Rotate(t, 1 - y, s);
      Commute(s, 1 + y);
      Commute(s, 1 - y);
      Regroup(t, 1 - y, s);
      EqTimes(2 * p.z, (1 - y) * s, t);
      DoubledProduct(t, p.z);
      Commute((1 - y) * s, t);
      HalveBoth(t * p.z, p.x);
      Quotient(t, p.x, p.z);
    }
  }

  lemma TwiceZero(z: int, v: int)
    requires Eq(2 * z, v) && !Eq(v, 0)
    ensures !Eq(z, 0)
  {
    if Eq(z, 0) {
      EqTimes(z, 0, 2);
    }
  }

  lemma DoubledProduct(t: int, z: int)
    ensures (2 * z) * t == 2 * (t * z)
  {
  }

  lemma HalveBoth(a: int, b: int)
    requires Fermat() && Eq(2 * a, 2 * b)
    ensures Eq(a, b)
  {
    TwoIsNotZero();
    Cancel(a, b, 2);
  }

  // ---------------------------------------------------------------- the ladder

  /** The textbook ladder of section 5 of RFC 7748: the pair of points after the bits of `k` from 254 down to `t`. */
  function Ladder(k: nat, x1: int, t: nat): (Pair, Pair)
    requires t <= 255
    decreases 255 - t
  {
    if t == 255 then (Pair(1, 0), Pair(x1, 1))
    else LadderNext(Ladder(k, x1, t + 1), Shr(k, t) % 2 == 1, x1)
  }

  function LadderNext(s: (Pair, Pair), bit: bool, x1: int): (Pair, Pair) {
    if bit then (DiffAdded(s.0, s.1, x1), Doubled(s.1)) else (Doubled(s.0), DiffAdded(s.0, s.1, x1))
  }

  /** `_x25519` */
  function X25519(scalar: seq<Byte>, point: seq<Byte>): (out: seq<Byte>)
    ensures |out| == 32
  {
    var p := Ladder(LadderClamp(FromLE(scalar)), MaskedU(point), 0).0;
    ToLE(Rem(p.x * Inv(p.z)), 32)
  }

  function MaskedU(point: seq<Byte>): nat {
    And(FromLE(point), TWO_255 - 1)
  }

  /** One step, with the two points in swapped order or not. */
  lemma SwapStep(k: nat, x1: int, t: nat, p2: Pair, p3: Pair, q2: Pair, q3: Pair, swap: bool)
    requires t < 255 && Ladder(k, x1, t + 1) == (if swap then (p3, p2) else (p2, p3))
    requires (q2, q3) == if swap != (Shr(k, t) % 2 == 1) then (p3, p2) else (p2, p3)
    ensures Ladder(k, x1, t)
         == if Shr(k, t) % 2 == 1 then (DiffAdded(q2, q3, x1), Doubled(q2)) else (Doubled(q2), DiffAdded(q2, q3, x1))
  {
    DiffSwap(p2, p3, x1);
  }

  /** The loop that carries the swap from one bit to the next computes the textbook ladder. */
  method X25519Loop(scalar: seq<Byte>, point: seq<Byte>) returns (out: seq<Byte>)
    ensures out == X25519(scalar, point)
  {
    var k := LadderClamp(FromLE(scalar));
    var x1 := MaskedU(point);
    var p2, p3 := Pair(1, 0), Pair(x1, 1);
    var swap := false;
    var t := 255;
    while t > 0
      invariant 0 <= t <= 255
      invariant Ladder(k, x1, t) == if swap then (p3, p2) else (p2, p3)
    {
      t := t - 1;
      var bit := Shr(k, t) % 2 == 1;
      ghost var q2, q3, was := p2, p3, swap;
      swap := swap != bit;
      if swap {
        p2, p3 := p3, p2;
      }
      swap := bit;
      SwapStep(k, x1, t, q2, q3, p2, p3, was);
      p2, p3 := Doubled(p2), DiffAdded(p2, p3, x1);
    }
    if swap {
      p2, p3 := p3, p2;
    }
    LadderResult(scalar, point, p2);
    out := ToLE(Rem(p2.x * Inv(p2.z)), 32);
  }

  lemma LadderResult(scalar: seq<Byte>, point: seq<Byte>, p: Pair)
    requires p == Ladder(LadderClamp(FromLE(scalar)), MaskedU(point), 0).0
    ensures X25519(scalar, point) == ToLE(Rem(p.x * Inv(p.z)), 32)
  {
  }

  lemma ShrStep(k: nat, t: nat)
    ensures Shr(k, t) == 2 * Shr(k, t + 1) + Shr(k, t) % 2
  {
    ShrShr(k, t, 1);
    assert Shr(Shr(k, t), 1) == Shr(k, t) / 2;
  }

  /** The pair holds `n g0` and `(n + 1) g0`. */
  predicate HoldsMultiples<G>(c: Curve<G>, s: (Pair, Pair), n: nat, g0: G) {
    Holds(c, s.0, Mul(c.group, n, g0)) && Holds(c, s.1, Mul(c.group, n + 1, g0))
  }

  /** After the bits of `k` down to `t`, the ladder holds `n g0` and `(n + 1) g0` for `n = k >> t`. */
  lemma {:induction false} LadderHolds<G(!new)>(c: Curve<G>, k: nat, x1: int, t: nat, g0: G)
    requires FieldFacts() && EdwardsGroup(c) && Eq(x1, U(c, g0)) && !Eq(x1, 0)
    requires t <= 255 && Shr(k, 255) == 0
    ensures HoldsMultiples(c, Ladder(k, x1, t), Shr(k, t), g0)
    decreases 255 - t
  {
    if t == 255 {
      StartHolds(c, x1, g0);
      MulOnce(c.group, g0);
    } else {
      LadderHolds(c, k, x1, t + 1, g0);
      ShrStep(k, t);
      LadderStep(c, Ladder(k, x1, t + 1), x1, Shr(k, t + 1), Shr(k, t) % 2 == 1, g0);
    }
  }

  lemma LadderStep<G(!new)>(c: Curve<G>, s: (Pair, Pair), x1: int, n: nat, bit: bool, g0: G)
    requires FieldFacts() && EdwardsGroup(c) && Eq(x1, U(c, g0)) && !Eq(x1, 0)
    requires HoldsMultiples(c, s, n, g0)
    ensures HoldsMultiples(c, LadderNext(s, bit, x1), 2 * n + if bit then 1 else 0, g0)
  {
    var gr := c.group;
    DoubledHolds(c, s.0, Mul(gr, n, g0));
    DoubledHolds(c, s.1, Mul(gr, n + 1, g0));
    assert Mul(gr, n + 1, g0) == gr.add(Mul(gr, n, g0), g0);
    DiffHolds(c, s.0, s.1, x1, Mul(gr, n, g0), g0);
    MulAdd(gr, n, n, g0);
    MulAdd(gr, n, n + 1, g0);
    MulAdd(gr, n + 1, n + 1, g0);
  }

  // ---------------------------------------------------------------- the points of order at most 2

  predicate ZeroSomewhere(p: Pair) {
    Eq(p.x, 0) || Eq(p.z, 0)
  }

  /** When one coordinate is zero the sum and the difference have equal squares. */
  lemma SumSquares(p: Pair)
    requires ZeroSomewhere(p)
    ensures Eq((p.x + p.z) * (p.x + p.z), (p.x - p.z) * (p.x - p.z))
  {
    if Eq(p.x, 0) {
      EqAdd(p.x, 0, p.z, p.z);
      EqSquare(p.x + p.z, p.z);
      EqSquare(p.x - p.z, -p.z);
      NegatedSquare(p.z);
    } else {
      EqAdd(p.x, p.x, p.z, 0);
      EqSquare(p.x + p.z, p.x);
      EqSquare(p.x - p.z, p.x);
    }
  }

  lemma DoubledZero(p: Pair)
    requires ZeroSomewhere(p)
    ensures ZeroSomewhere(Doubled(p))
  {
    var s, t := p.x + p.z, p.x - p.z;
    SumSquares(p);
    SquareReduced(s);
    SquareReduced(t);
    EqualSquares(Rem(Rem(s) * Rem(s)), Rem(Rem(t) * Rem(t)));
  }

  lemma EqualSquares(aa: int, bb: int)
    requires Eq(aa, bb)
    ensures Eq(FromSquares(aa, bb).z, 0)
  {
    EqZero(aa, bb);
    var e := Rem(aa - bb);
    Small(0);
    assert e == 0;
    assert e * (aa + A24 * e) == 0;
  }

  lemma DiffZero(p: Pair, q: Pair, x1: int)
    requires Eq(x1, 0)
    ensures ZeroSomewhere(DiffAdded(p, q, x1))
  {
    var z := Rem(DaMinusCb(p, q));
    EqTimes(x1, 0, Rem(z * z));
    Commute(x1, Rem(z * z));
  }

  function DaMinusCb(p: Pair, q: Pair): int {
    Rem(Rem(q.x - q.z) * Rem(p.x + p.z)) - Rem(Rem(q.x + q.z) * Rem(p.x - p.z))
  }

  lemma {:induction false} LadderZero(k: nat, x1: int, t: nat)
    requires Eq(x1, 0) && t <= 255
    ensures ZeroSomewhere(Ladder(k, x1, t).0) && ZeroSomewhere(Ladder(k, x1, t).1)
    decreases 255 - t
  {
    if t < 255 {
      var s := Ladder(k, x1, t + 1);
      LadderZero(k, x1, t + 1);
      DoubledZero(s.0);
      DoubledZero(s.1);
      DiffZero(s.0, s.1, x1);
    }
  }

  lemma ZeroQuotient(p: Pair)
    requires ZeroSomewhere(p)
    ensures Rem(p.x * Inv(p.z)) == 0
  {
    Small(0);
    if Eq(p.x, 0) {
      EqTimes(p.x, 0, Inv(p.z));
    } else {
      InverseOfZero(p.z);
    }
  }

  /** u is 0 only at the neutral element and at the element of order 2. */
  lemma ZeroUDoubles<G(!new)>(c: Curve<G>, g: G)
    requires FieldFacts() && EdwardsGroup(c) && U(c, g) == 0
    ensures c.group.add(g, g) == c.group.zero
  {
    var x, y := c.ax(g), c.ay(g);
    assert ElementAt(c, g) && AddsAt(c, g, g);
    YIsPlusOrMinusOne(y);
    XIsZero(x, y);
    var s := c.group.add(g, g);
    assert ElementAt(c, s);
    DoubledToZero(y, c.ax(s), c.ay(s));
    assert SamePlace(c, s, c.group.zero);
  }

  lemma DoubledToZero(y: int, xs: int, ys: int)
    requires Eq(y * y, 1) && 0 <= xs < P && 0 <= ys < P
    requires Eq(xs * (1 + Cross(0, y, 0, y)), 0 * y + 0 * y) && Eq(ys * (1 - Cross(0, y, 0, y)), y * y + 0 * 0)
    ensures xs == 0 && ys == 1
  {
    assert Cross(0, y, 0, y) == 0;
    Small(xs);
    Small(ys);
    Small(0);
    TwoIsNotZero();
    Small(1);
  }

  lemma YIsPlusOrMinusOne(y: int)
    requires Fermat() && UOf(y) == 0
    ensures Eq(y * y, 1)
  {
    Small(0);
    if Eq(1 - y, 0) {
      EqZero(1, y);
      EqSquare(y, 1);
    } else {
      UQuotient(y, 0);
      EqAdd(1 + y, 0, 1, 1);
      EqSquare(y, -1);
    }
  }

  lemma XIsZero(x: int, y: int)
    requires FieldFacts() && OnCurve(x, y) && Eq(y * y, 1) && 0 <= x < P
    ensures x == 0
  {
    CurveSolved(x, y);
    DenominatorNotZero(y);
    EqAdd(y * y, 1, 1, 1);
    NoZeroDivisors(x * x, D * y * y + 1);
    NoZeroDivisors(x, x);
    Small(x);
    Small(0);
  }

  // ---------------------------------------------------------------- the theorem

  lemma ClampedBelow(k: nat)
    ensures Shr(LadderClamp(k), 255) == 0
  {
    ClampedRange(k);
    NothingAbove(LadderClamp(k), 255);
  }

  lemma NothingAbove(a: nat, n: nat)
    requires a < Pow2(n)
    ensures Shr(a, n) == 0
  {
    ShrPow2(a, 0, n);
  }

  /** The top bit of the point is ignored. */
  lemma MaskedIs(point: seq<Byte>)
    ensures MaskedU(point) == FromLE(point) % TWO_255
  {
    PIs();
    MaskIsMod(FromLE(point), 255);
  }

  lemma LadderMultiplies<G(!new)>(c: Curve<G>, scalar: seq<Byte>, point: seq<Byte>, g0: G)
    requires FieldFacts() && EdwardsGroup(c) && Rem(MaskedU(point)) == U(c, g0)
    ensures X25519(scalar, point) == ToLE(U(c, Mul(c.group, LadderClamp(FromLE(scalar)), g0)), 32)
  {
    var k, x1 := LadderClamp(FromLE(scalar)), MaskedU(point);
    var p := Ladder(k, x1, 0).0;
    if Eq(x1, 0) {
      Small(0);
      LadderZero(k, x1, 0);
      ZeroQuotient(p);
      ZeroUDoubles(c, g0);
      MulOfOrderTwo(c.group, k, g0);
      TwoIsNotZero();
      UAtOne(1);
    } else {
      ClampedBelow(FromLE(scalar));
      LadderHolds(c, k, x1, 0, g0);
      AffineIsU(p, c.ay(Mul(c.group, k, g0)));
    }
  }

  /**
   * For every scalar and every point whose low 255 bits are a u coordinate of an element of the group, reduced or not,
   * the result is the u coordinate of the multiple by the clamped scalar.
   */
  lemma X25519Multiplies<G(!new)>(c: Curve<G>, scalar: seq<Byte>, point: seq<Byte>, g0: G)
    requires FieldFacts() && EdwardsGroup(c) && Rem(FromLE(point) % TWO_255) == U(c, g0)
    ensures X25519(scalar, point) == ToLE(U(c, Mul(c.group, LadderClamp(FromLE(scalar)), g0)), 32)
  {
    MaskedIs(point);
    LadderMultiplies(c, scalar, point, g0);
  }
}
