/** Thirty-two byte encodings of curve points: compression and decompression. */
module PointCodec {
  import opened Edwards
  import opened Field
  import opened Numbers
  import opened Wire
  import opened Xor

  ghost predicate DIsNoSquare() {
    forall w: int :: !Eq(w * w, D)
  }

  /** The number-theoretic facts about `P` and `d` that the code relies on. */
  ghost predicate FieldFacts() {
    Fermat() && TwoIsNoSquare() && DIsNoSquare()
  }

  /** `_recover_x`, for a sign bit of 0 or 1. */
  function RecoverX(y: int, sign: int): Option<int> {
    if y >= P then None
    else
      var xx := XSquared(y);
      var x := Candidate(xx);
      if Rem(x * x - xx) != 0 then None
      else if x % 2 != sign then Some(P - x)
      else Some(x)
  }

  /** `_point_compress` */
  function Compress(p: Point): (s: seq<Byte>)
    ensures |s| == 32
  {
    var zinv := Inv(p.z);
    var x, y := Rem(p.x * zinv), Rem(p.y * zinv);
    ToLE(Or(y, (x % 2) * TWO_255), 32)
  }

  /** `_point_decompress` */
  function Decompress(s: seq<Byte>): Option<Point> {
    if |s| != 32 then None
    else
      var n := FromLE(s);
      var sign := Shr(n, 255);
      var y := And(n, TWO_255 - 1);
      match RecoverX(y, sign)
      case None => None
      case Some(x) => Some(Point(x, y, 1, Rem(x * y)))
  }

  // ---------------------------------------------------------------- packing the sign bit

  lemma {:induction false} OrZero(y: nat)
    ensures Or(y, 0) == y
    decreases y
  {
    if y > 0 {
      OrZero(y / 2);
    }
  }

  lemma {:induction false} OrHigh(y: nat, n: nat)
    requires y < Pow2(n)
    ensures Or(y, Pow2(n)) == y + Pow2(n)
    decreases n
  {
    if n == 0 {
      OrZero(0);
    } else {
      OrHigh(y / 2, n - 1);
    }
  }

  lemma SplitAt(k: nat, n: nat) returns (y: nat, sign: nat)
    requires k < 2 * Pow2(n)
    ensures k == y + Pow2(n) * sign && y < Pow2(n) && sign < 2
    ensures Shr(k, n) == sign && And(k, Pow2(n) - 1) == y
  {
    sign := if k < Pow2(n) then 0 else 1;
    y := k - Pow2(n) * sign;
    UnpackAt(y, sign, n);
  }

  lemma Pow2Of256()
    ensures Pow2(8 * 32) == 2 * TWO_255
  {
    PIs();
  }

  lemma FromLE32(s: seq<Byte>)
    requires |s| == 32
    ensures FromLE(s) < 2 * TWO_255
  {
    FromLEBound(s);
    Pow2Of256();
  }

  /** A 32-byte number splits into 255 bits and a sign. */
  lemma SplitBytes(s: seq<Byte>) returns (y: nat, sign: nat)
    requires |s| == 32
    ensures FromLE(s) == y + TWO_255 * sign && y < TWO_255 && sign < 2
    ensures Shr(FromLE(s), 255) == sign && And(FromLE(s), TWO_255 - 1) == y
  {
    FromLE32(s);
    PIs();
    y, sign := SplitAt(FromLE(s), 255);
  }

  /** The encoding of an element. */
  ghost function Encoded<G>(c: Curve<G>, g: G): (s: seq<Byte>)
    requires 0 <= c.ay(g)
    ensures |s| == 32
  {
    ToLE(c.ay(g) + TWO_255 * (c.ax(g) % 2), 32)
  }

  lemma PackAt(y: nat, sign: nat, n: nat)
    requires y < Pow2(n) && sign < 2
    ensures Or(y, sign * Pow2(n)) == y + Pow2(n) * sign
  {
    OrHigh(y, n);
    OrZero(y);
  }

  lemma UnpackAt(y: nat, sign: nat, n: nat)
    requires y < Pow2(n)
    ensures Shr(y + Pow2(n) * sign, n) == sign && And(y + Pow2(n) * sign, Pow2(n) - 1) == y
  {
    ShrPow2(y, sign, n);
    AndLow(y, n, sign);
  }

  lemma PackSign(y: nat, sign: nat)
    requires y < TWO_255 && sign < 2
    ensures Or(y, sign * TWO_255) == y + TWO_255 * sign
  {
    PIs();
    PackAt(y, sign, 255);
  }

  lemma ThirtyTwoBytes(n: nat)
    requires n < 2 * TWO_255
    ensures FromLE(ToLE(n, 32)) == n
  {
    Pow2Of256();
    LERoundTrip(n, 32);
  }

  lemma UnpackNumber(y: nat, sign: nat)
    requires y < TWO_255
    ensures Shr(y + TWO_255 * sign, 255) == sign && And(y + TWO_255 * sign, TWO_255 - 1) == y
  {
    PIs();
    UnpackAt(y, sign, 255);
  }

  /** Packing into bytes loses nothing. */
  lemma UnpackSign(y: nat, sign: nat)
    requires y < TWO_255 && sign < 2
    ensures var n := FromLE(ToLE(y + TWO_255 * sign, 32)); Shr(n, 255) == sign && And(n, TWO_255 - 1) == y
  {
    ThirtyTwoBytes(y + TWO_255 * sign);
    UnpackNumber(y, sign);
  }

  lemma CompressEncodes<G(!new)>(c: Curve<G>, p: Point, g: G)
    requires Fermat() && EdwardsGroup(c) && Represents(c, p, g)
    ensures ElementAt(c, g) && Compress(p) == Encoded(c, g)
  {
    assert ElementAt(c, g);
    Quotient(c.ax(g), p.x, p.z);
    Quotient(c.ay(g), p.y, p.z);
    Small(c.ax(g));
    Small(c.ay(g));
    PackSign(c.ay(g), c.ax(g) % 2);
  }

  // ---------------------------------------------------------------- recovering x

  /** `-1 / d` is not a square. */
  lemma DenominatorNotZero(y: int)
    requires FieldFacts()
    ensures !Eq(D * y * y + 1, 0)
  {
    if Eq(D * y * y + 1, 0) {
      if Eq(y, 0) {
        EqMul(y, 0, y, 0);
        EqTimes(y * y, 0, D);
        Regroup(D, y, y);
        EqAdd(D * y * y, 0, 1, 1);
        assert false by {
          TwoIsNotZero();
        }
      } else {
        RootOfMinusOne();
        EqAdd(D * y * y + 1, 0, 1, 1);
        Regroup(D, y, y);
        SquareRatio(D, y, ROOT_OF_MINUS_ONE);
      }
    }
  }

  /** If `a y^2` is a square and `y` is not zero then `a` is a square. */
  lemma SquareRatio(a: int, y: int, i: int)
    requires Fermat() && Eq(a * (y * y), i * i) && !Eq(y, 0)
    ensures Eq((i * Inv(y)) * (i * Inv(y)), a)
  {
    var v := Inv(y);
    InverseWorks(y);
    EqMul(y * v, 1, y * v, 1);
    Interchange(y, v, y, v);
    Interchange(i, v, i, v);
    EqTimes(a * (y * y), i * i, v * v);
    Regroup(a, y * y, v * v);
    EqTimes((y * y) * (v * v), 1, a);
  }

  /** The curve equation solved for `x^2`. */
  lemma CurveSolved(x: int, y: int)
    ensures OnCurve(x, y) <==> Eq((x * x) * (D * y * y + 1), y * y - 1)
  {
    var l, r := y * y - x * x, 1 + Cross(x, y, x, y);
    CurveTerms(x, y);
    EqZero(l, r);
    EqZero((x * x) * (D * y * y + 1), y * y - 1);
    NegatedZero(l - r);
  }

  lemma CurveTerms(x: int, y: int)
    ensures (x * x) * (D * y * y + 1) - (y * y - 1) == -((y * y - x * x) - (1 + Cross(x, y, x, y)))
  {
    CrossAtSelf(x, y);
    Regroup(D, y, y);
    Expanded(D, x * x, y * y);
  }

  lemma CrossAtSelf(x: int, y: int)
    ensures Cross(x, y, x, y) == D * ((x * x) * (y * y))
  {
    Interchange(x, y, x, y);
    Regroup(D, x * y, x * y);
  }

  lemma Expanded(d: int, xx: int, yy: int)
    ensures xx * (d * yy + 1) == d * yy * xx + xx && d * (xx * yy) == d * yy * xx
  {
  }

  lemma NegatedZero(a: int)
    ensures Eq(-a, 0) <==> Eq(a, 0)
  {
    EqZero(a, 0);
    if Eq(a, 0) {
      EqAdd(0, 0, a, 0);
    }
    if Eq(-a, 0) {
      EqAdd(0, 0, -a, 0);
    }
  }

  /** `x^2` from `y`, as `_recover_x` computes it. */
  function XSquared(y: int): int {
    Rem((y * y - 1) * Inv(D * y * y + 1))
  }

  lemma XSquaredIs(x: int, y: int)
    requires FieldFacts() && OnCurve(x, y)
    ensures Eq(x * x, XSquared(y))
  {
    CurveSolved(x, y);
    DenominatorNotZero(y);
    Quotient(x * x, y * y - 1, D * y * y + 1);
    Reduced((y * y - 1) * Inv(D * y * y + 1));
  }

  lemma CandidateFinds(x: int, y: int)
    requires FieldFacts() && OnCurve(x, y) && 0 <= x < P
    ensures var r := Candidate(XSquared(y));
            Rem(r * r - XSquared(y)) == 0 && (r == x || (x > 0 && r == P - x))
  {
    XSquaredIs(x, y);
    CandidateIsRoot(XSquared(y), x);
    var r := Candidate(XSquared(y));
    EqZero(r * r, XSquared(y));
    Small(0);
    OnlyTwoRoots(r, x);
    SameOrOpposite(r, x);
  }

  /** Of the two roots, the sign bit picks the one with its parity. */
  lemma RecoverFinds<G(!new)>(c: Curve<G>, g: G, sign: int)
    requires FieldFacts() && EdwardsGroup(c) && 0 <= sign < 2
    ensures RecoverX(c.ay(g), sign) == Some(if c.ax(g) % 2 == sign then c.ax(g) else P - c.ax(g))
  {
    assert ElementAt(c, g);
    CandidateFinds(c.ax(g), c.ay(g));
    PIsOdd(c.ax(g));
  }

  lemma PIsOdd(x: int)
    ensures (P - x) % 2 != x % 2
  {
  }

  lemma SameOrOpposite(r: int, x: int)
    requires 0 <= r < P && 0 <= x < P && (Eq(r, x) || Eq(r, -x))
    ensures r == x || (x > 0 && r == P - x)
  {
    Small(r);
    Small(x);
    if Eq(r, -x) && x > 0 {
      EqFrom(P - x, -x, 1);
      Small(P - x);
    }
  }

  /** Decompression undoes compression. */
  lemma DecompressUndoes<G(!new)>(c: Curve<G>, g: G)
    requires FieldFacts() && EdwardsGroup(c)
    ensures ElementAt(c, g)
    ensures Decompress(Encoded(c, g)) == Some(Point(c.ax(g), c.ay(g), 1, Rem(c.ax(g) * c.ay(g))))
  {
    assert ElementAt(c, g);
    UnpackSign(c.ay(g), c.ax(g) % 2);
    RecoverFinds(c, g, c.ax(g) % 2);
  }

  lemma DecompressedRepresents<G(!new)>(c: Curve<G>, x: int, y: int, g: G)
    requires EdwardsGroup(c) && Eq(x, c.ax(g)) && y == c.ay(g)
    ensures Represents(c, Point(x, y, 1, Rem(x * y)), g)
  {
    TwoIsNotZero();
    Reduced(x * y);
    EqTimes(x, c.ax(g), y);
  }

  lemma NegatedRoot(r: int)
    ensures Eq((P - r) * (P - r), r * r)
  {
    EqFrom(P - r, -r, 1);
    EqMul(P - r, -r, P - r, -r);
    NegatedSquare(r);
  }

  lemma RootIsOnCurve(r: int, y: int)
    requires FieldFacts() && Eq(r * r, XSquared(y))
    ensures OnCurve(r, y)
  {
    var a, b := y * y - 1, D * y * y + 1;
    DenominatorNotZero(y);
    QuotientSolves(a, b);
    EqTimes(r * r, a * Inv(b), b);
    CurveSolved(r, y);
  }

  /** What `_recover_x` returns lies on the curve. */
  lemma RecoveredIsOnCurve(y: int, sign: int)
    requires FieldFacts() && RecoverX(y, sign).Some?
    ensures OnCurve(RecoverX(y, sign).value, y)
  {
    var r := Candidate(XSquared(y));
    EqZero(r * r, XSquared(y));
    NegatedRoot(r);
    RootIsOnCurve(RecoverX(y, sign).value, y);
  }

  /** The element a decompressed point stands for. */
  ghost function Decoded<G>(c: Curve<G>, p: Point): G {
    c.at(Rem(p.x), p.y)
  }

  lemma OnCurveReduced(x: int, y: int)
    requires OnCurve(x, y)
    ensures OnCurve(Rem(x), y)
  {
    CurveSolved(x, y);
    Reduced(x);
    EqMul(Rem(x), x, Rem(x), x);
    EqTimes(Rem(x) * Rem(x), x * x, D * y * y + 1);
    CurveSolved(Rem(x), y);
  }

  /** A 32-byte string decompresses exactly when its low 255 bits are the y coordinate of a curve point. */
  lemma DecompressExactly<G(!new)>(c: Curve<G>, s: seq<Byte>)
    requires FieldFacts() && EdwardsGroup(c) && |s| == 32
    ensures Decompress(s).Some? <==> exists g :: c.ay(g) == And(FromLE(s), TWO_255 - 1)
    ensures Decompress(s).Some? ==> Represents(c, Decompress(s).value, Decoded(c, Decompress(s).value))
  {
    var y, sign := SplitBytes(s);
    if g :| c.ay(g) == y {
      assert ElementAt(c, g);
      RecoverFinds(c, g, sign);
    }
    if Decompress(s).Some? {
      var x := RecoverX(y, sign).value;
      RecoveredIsOnCurve(y, sign);
      OnCurveReduced(x, y);
      Reduced(x);
      assert ReachedAt(c, Rem(x), y);
      DecompressedRepresents(c, x, y, c.at(Rem(x), y));
    }
  }
}
