/** Arithmetic modulo 2^255 - 19: congruences, powers, inverses and square roots. */
module Field {
  import opened Basics
  import opened Numbers

  type Positive = n: int | n > 0 witness 1

  /** `_p`, by its little-endian bytes. */
  const P: Positive := FromLE([0xED] + (Repeated(30, 0xFF) + [0x7F]))

  /** 2^255 */
  const TWO_255: nat := P + 19

  lemma PBytes()
    ensures P == 0xED + 256 * FromLE(Repeated(30, 0xFF) + [0x7F])
  {
    FirstByte(0xED, Repeated(30, 0xFF) + [0x7F]);
  }

  lemma FirstByte(b: Byte, rest: seq<Byte>)
    ensures FromLE([b] + rest) == b + 256 * FromLE(rest)
  {
    assert ([b] + rest)[1..] == rest;
  }

  lemma AllOnes(n: nat)
    ensures 256 * FromLE(Repeated(n, 0xFF) + [0x7F]) + 256 == Pow2(8 * n + 15)
  {
    OnesThen(n, 0x7F);
    Pow2Sum(8 * n, 15);
    Pow2Byte(7);
    Pow2Byte(0);
    assert Pow2(8) == 2 * Pow2(7);
    Rotate(Pow2(8 * n), 128, 256);
  }

  lemma PIs()
    ensures TWO_255 == Pow2(255)
  {
    PBytes();
    AllOnes(30);
  }

  /** `a % _p`, never negative, by repeated subtraction or addition. */
  function Rem(a: int): (r: int)
    ensures 0 <= r < P
    decreases if a < 0 then P - a else a
  {
    if a < 0 then Rem(a + P) else if a < P then a else Rem(a - P)
  }

  /** Congruence modulo `P`. */
  predicate Eq(a: int, b: int) {
    Rem(a) == Rem(b)
  }

  // ---------------------------------------------------------------- congruences

  lemma {:induction false} EqShift(a: int, k: nat)
    ensures Eq(a + k * P, a)
    decreases k
  {
    if k > 0 {
      EqShift(a, k - 1);
      Distribute(k, 1, P);
      assert Rem(a + (k - 1) * P + P) == Rem(a + (k - 1) * P);
    }
  }

  /** Numbers that differ by a multiple are congruent. */
  lemma EqFrom(a: int, b: int, k: int)
    requires a == b + k * P
    ensures Eq(a, b)
  {
    if k >= 0 {
      EqShift(b, k);
    } else {
      assert b == a + (-k) * P;
      EqShift(a, -k);
    }
  }

  lemma {:induction false} RemMeans(a: int) returns (k: int)
    ensures a == Rem(a) + k * P
    decreases if a < 0 then P - a else a
  {
    if a < 0 {
      k := RemMeans(a + P);
      Distribute(k, 1, P);
      k := k - 1;
    } else if a < P {
      k := 0;
    } else {
      k := RemMeans(a - P);
      Distribute(k, 1, P);
      k := k + 1;
    }
  }

  /** Congruent numbers differ by a multiple. */
  lemma EqMeans(a: int, b: int) returns (k: int)
    requires Eq(a, b)
    ensures a == b + k * P
  {
    var i := RemMeans(a);
    var j := RemMeans(b);
    k := i - j;
    Distribute(i, j, P);
  }

  lemma MultiplesAreFar(d: int, m: int)
    requires -m < d * m < m
    ensures d == 0
  {
  }

  lemma UniqueQuotient(m: int, q: int, r: int, k: int, t: int)
    requires m > 0 && q * m + r == k * m + t && 0 <= r < m && 0 <= t < m
    ensures r == t
  {
    Distribute(q, k, m);
    MultiplesAreFar(q - k, m);
  }

  /** `Rem` is the built-in remainder. */
  lemma RemIsMod(a: int)
    ensures Rem(a) == a % P
  {
    var k := RemMeans(a);
    UniqueQuotient(P, k, Rem(a), a / P, a % P);
  }

  lemma Reduced(a: int)
    ensures Eq(Rem(a), a)
  {
  }

  lemma Small(a: int)
    requires 0 <= a < P
    ensures Rem(a) == a
  {
  }

  lemma EqAdd(a: int, b: int, c: int, d: int)
    requires Eq(a, b) && Eq(c, d)
    ensures Eq(a + c, b + d) && Eq(a - c, b - d)
  {
    var k := EqMeans(a, b);
    var l := EqMeans(c, d);
    Distribute(k, l, P);
    EqFrom(a + c, b + d, k + l);
    EqFrom(a - c, b - d, k - l);
  }

  lemma EqTimes(a: int, b: int, c: int)
    requires Eq(a, b)
    ensures Eq(a * c, b * c)
  {
    var k := EqMeans(a, b);
    Distribute(b, k * P, c);
    Rotate(k, P, c);
    EqFrom(a * c, b * c, k * c);
  }

  lemma EqMul(a: int, b: int, c: int, d: int)
    requires Eq(a, b) && Eq(c, d)
    ensures Eq(a * c, b * d)
  {
    EqTimes(a, b, c);
    EqTimes(c, d, b);
  }

  lemma EqZero(a: int, b: int)
    ensures Eq(a, b) <==> Eq(a - b, 0)
  {
    if Eq(a, b) {
      EqAdd(a, b, b, b);
    }
    if Eq(a - b, 0) {
      EqAdd(a - b, 0, b, b);
    }
  }

  lemma EqTimesFactor(p: int, a: int, q: int, x: int, y: int, u: int)
    requires Eq(p, a * q) && Eq(q, x * y) && Eq(u, a * x)
    ensures Eq(p, u * y)
  {
    EqMul(a, a, q, x * y);
    EqTimes(u, a * x, y);
    Regroup(a, x, y);
  }

  lemma Rotate(a: int, b: int, c: int)
    ensures (a * b) * c == (a * c) * b
  {
  }

  lemma Commute(a: int, b: int)
    ensures a * b == b * a
  {
  }

  lemma NegatedSquare(a: int)
    ensures (-a) * (-a) == a * a
  {
  }

  lemma Regroup(a: int, b: int, c: int)
    ensures a * (b * c) == (a * b) * c
  {
  }

  lemma Interchange(a: int, b: int, c: int, d: int)
    ensures (a * b) * (c * d) == (a * c) * (b * d)
  {
    Regroup(a * b, c, d);
    Regroup(a, b, c);
    Regroup(a, c, b);
    Regroup(a * c, b, d);
  }

  // ---------------------------------------------------------------- powers

  /** `pow(a, e, P)` */
  function ModPow(a: int, e: nat): int {
    if e == 0 then Rem(1) else Rem(a * ModPow(a, e - 1))
  }

  lemma ModPowRange(a: int, e: nat)
    ensures 0 <= ModPow(a, e) < P
  {
  }

  lemma PowStep(a: int, e: nat)
    ensures Eq(ModPow(a, e + 1), a * ModPow(a, e))
  {
    Reduced(a * ModPow(a, e));
  }

  lemma PowFirst(a: int)
    ensures ModPow(a, 0) == 1 && Eq(ModPow(a, 1), a)
  {
    Small(1);
    PowStep(a, 0);
  }

  lemma {:induction false} PowAdd(a: int, m: nat, n: nat)
    ensures Eq(ModPow(a, m + n), ModPow(a, m) * ModPow(a, n))
    decreases m
  {
    if m == 0 {
      PowFirst(a);
    } else {
      var x, y := ModPow(a, m - 1), ModPow(a, n);
      PowAdd(a, m - 1, n);
      PowStep(a, m - 1 + n);
      PowStep(a, m - 1);
      EqTimesFactor(ModPow(a, m + n), a, ModPow(a, m - 1 + n), x, y, ModPow(a, m));
    }
  }

  lemma {:induction false} PowEq(a: int, b: int, e: nat)
    requires Eq(a, b)
    ensures ModPow(a, e) == ModPow(b, e)
  {
    if e > 0 {
      PowEq(a, b, e - 1);
      EqTimes(a, b, ModPow(a, e - 1));
    }
  }

  lemma {:induction false} PowMul(a: int, b: int, e: nat)
    ensures Eq(ModPow(a * b, e), ModPow(a, e) * ModPow(b, e))
  {
    if e == 0 {
      PowFirst(a * b);
    } else {
      var x, y := ModPow(a, e - 1), ModPow(b, e - 1);
      PowMul(a, b, e - 1);
      PowStep(a * b, e - 1);
      EqMul(a * b, a * b, ModPow(a * b, e - 1), x * y);
      PowStep(a, e - 1);
      PowStep(b, e - 1);
      EqMul(ModPow(a, e), a * x, ModPow(b, e), b * y);
      Interchange(a, b, x, y);
    }
  }

  lemma PowTwice(a: int, e: nat)
    ensures Eq(ModPow(a, 2 * e), ModPow(a, e) * ModPow(a, e)) && Eq(ModPow(a * a, e), ModPow(a, 2 * e))
  {
    PowAdd(a, e, e);
    PowMul(a, a, e);
  }

  // ---------------------------------------------------------------- the field

  /** Fermat's little theorem for `P`: what the primality of `P` is used for. */
  ghost predicate Fermat() {
    forall a: int :: !Eq(a, 0) ==> ModPow(a, P - 1) == 1
  }

  /** `_inv` */
  function Inv(a: int): int {
    ModPow(a, P - 2)
  }

  lemma AtLeast13()
    ensures P >= 13 && P % 8 == 5
  {
    PBytes();
  }

  lemma InverseWorks(a: int)
    requires Fermat() && !Eq(a, 0)
    ensures Eq(a * Inv(a), 1)
  {
    AtLeast13();
    PowStep(a, P - 2);
  }

  lemma InverseOfZero(a: int)
    requires Eq(a, 0)
    ensures Inv(a) == 0
  {
    AtLeast13();
    PowEq(a, 0, P - 2);
    Small(0);
  }

  lemma NoZeroDivisors(a: int, b: int)
    requires Fermat() && Eq(a * b, 0)
    ensures Eq(a, 0) || Eq(b, 0)
  {
    if !Eq(a, 0) {
      var v := Inv(a);
      InverseWorks(a);
      EqTimes(a * b, 0, v);
      Rotate(a, b, v);
      EqTimes(a * v, 1, b);
    }
  }

  lemma ProductNonzero(a: int, b: int)
    requires Fermat() && !Eq(a, 0) && !Eq(b, 0)
    ensures !Eq(a * b, 0)
  {
    if Eq(a * b, 0) {
      NoZeroDivisors(a, b);
    }
  }

  lemma Cancel(a: int, b: int, c: int)
    requires Fermat() && Eq(a * c, b * c) && !Eq(c, 0)
    ensures Eq(a, b)
  {
    EqZero(a * c, b * c);
    assert a * c - b * c == (a - b) * c;
    NoZeroDivisors(a - b, c);
    EqZero(a, b);
  }

  /** Dividing: the only solution of `x * c = a`. */
  lemma Quotient(x: int, a: int, c: int)
    requires Fermat() && Eq(x * c, a) && !Eq(c, 0)
    ensures Eq(a * Inv(c), x)
  {
    var v := Inv(c);
    InverseWorks(c);
    EqTimes(x * c, a, v);
    Regroup(x, c, v);
    EqTimes(c * v, 1, x);
    Commute(c * v, x);
  }

  /** And it is a solution. */
  lemma QuotientSolves(a: int, c: int)
    requires Fermat() && !Eq(c, 0)
    ensures Eq((a * Inv(c)) * c, a)
  {
    var v := Inv(c);
    InverseWorks(c);
    Commute(c, v);
    Regroup(a, v, c);
    EqTimes(c * v, 1, a);
    Commute(c * v, a);
  }

  lemma OnlyTwoRoots(a: int, b: int)
    requires Fermat() && Eq(a * a, b * b)
    ensures Eq(a, b) || Eq(a, -b)
  {
    EqZero(a * a, b * b);
    assert a * a - b * b == (a - b) * (a + b);
    NoZeroDivisors(a - b, a + b);
    EqZero(a, b);
    EqZero(a, -b);
  }

  // ---------------------------------------------------------------- square roots

  /** `_I`, a square root of -1 because 2 is not a square modulo `P`. */
  const ROOT_OF_MINUS_ONE: int := ModPow(2, (P - 1) / 4)

  ghost predicate TwoIsNoSquare() {
    ModPow(2, (P - 1) / 2) == P - 1
  }

  lemma RootOfMinusOne()
    requires TwoIsNoSquare()
    ensures Eq(ROOT_OF_MINUS_ONE * ROOT_OF_MINUS_ONE, -1)
  {
    AtLeast13();
    assert (P - 1) / 2 == 2 * ((P - 1) / 4);
    PowTwice(2, (P - 1) / 4);
    EqFrom(P - 1, -1, 1);
  }

  /** The candidate `_recover_x` computes for a square root of `w`, with its correction. */
  function Candidate(w: int): int {
    var x := ModPow(w, (P + 3) / 8);
    if Rem(x * x - w) != 0 then Rem(x * ROOT_OF_MINUS_ONE) else x
  }

  /** If the first candidate is off by a sign, the correction repairs it. */
  lemma SecondTry(x: int, w: int)
    requires Fermat() && TwoIsNoSquare() && Eq((x * x) * (x * x), w * w) && !Eq(x * x, w)
    ensures Eq((x * ROOT_OF_MINUS_ONE) * (x * ROOT_OF_MINUS_ONE), w)
  {
    var i := ROOT_OF_MINUS_ONE;
    OnlyTwoRoots(x * x, w);
    RootOfMinusOne();
    EqMul(x * x, -w, i * i, -1);
    Interchange(x, i, x, i);
    assert (-w) * (-1) == w;
  }

  lemma SquareReduced(y: int)
    ensures Eq(Rem(y) * Rem(y), y * y)
  {
    Reduced(y);
    EqMul(Rem(y), y, Rem(y), y);
  }

  /** When `w` has a root, the candidate is one. */
  lemma CandidateIsRoot(w: int, r: int)
    requires Fermat() && TwoIsNoSquare() && Eq(r * r, w)
    ensures Eq(Candidate(w) * Candidate(w), w) && 0 <= Candidate(w) < P
  {
    var x := ModPow(w, (P + 3) / 8);
    FirstTry(w, r);
    EqZero(x * x, w);
    Small(0);
    ModPowRange(w, (P + 3) / 8);
    if !Eq(x * x, w) {
      SecondTry(x, w);
      SquareReduced(x * ROOT_OF_MINUS_ONE);
    }
  }

  /** The first candidate's fourth power is `w` squared. */
  lemma FirstTry(w: int, r: int)
    requires Fermat() && Eq(r * r, w)
    ensures var x := ModPow(w, (P + 3) / 8); Eq((x * x) * (x * x), w * w)
  {
    FourthPower(w, (P + 3) / 8);
    Exponents();
    HalfOrderAndTwo(w, r);
  }

  lemma Exponents()
    ensures 4 * ((P + 3) / 8) == (P - 1) / 2 + 2
  {
    AtLeast13();
  }

  lemma FourthPower(w: int, e: nat)
    ensures var x := ModPow(w, e); Eq(ModPow(w, 4 * e), (x * x) * (x * x))
  {
    var x := ModPow(w, e);
    PowTwice(w, e);
    PowTwice(w, 2 * e);
    EqMul(ModPow(w, 2 * e), x * x, ModPow(w, 2 * e), x * x);
  }

  lemma HalfOrderAndTwo(w: int, r: int)
    requires Fermat() && Eq(r * r, w)
    ensures Eq(ModPow(w, (P - 1) / 2 + 2), w * w)
  {
    var h := (P - 1) / 2;
    PowAdd(w, h, 2);
    Pow2nd(w);
    EulerForSquares(w, r);
    if Eq(w, 0) {
      EqMul(w, 0, w, 0);
      EqMul(ModPow(w, h), 0, ModPow(w, 2), w * w);
    } else {
      EqMul(ModPow(w, h), 1, ModPow(w, 2), w * w);
    }
  }

  lemma Pow2nd(w: int)
    ensures Eq(ModPow(w, 2), w * w)
  {
    PowStep(w, 1);
    PowFirst(w);
    EqMul(w, w, ModPow(w, 1), w);
  }

  lemma EulerForSquares(w: int, r: int)
    requires Fermat() && Eq(r * r, w)
    ensures Eq(ModPow(w, (P - 1) / 2), if Eq(w, 0) then 0 else 1)
  {
    AtLeast13();
    EulerAt(w, r, (P - 1) / 2);
  }

  lemma EulerAt(w: int, r: int, h: nat)
    requires Fermat() && Eq(r * r, w) && h > 0 && 2 * h == P - 1
    ensures Eq(ModPow(w, h), if Eq(w, 0) then 0 else 1)
  {
    if Eq(w, 0) {
      PowEq(w, 0, h);
    } else {
      if Eq(r, 0) {
        EqMul(r, 0, r, 0);
      }
      PowEq(w, r * r, h);
      PowTwice(r, h);
    }
  }

  // ---------------------------------------------------------------- longer byte strings

  lemma {:induction false} FromLEConcat(low: seq<Byte>, high: seq<Byte>)
    ensures FromLE(low + high) == FromLE(low) + Pow2(8 * |low|) * FromLE(high)
  {
    if low == [] {
      assert low + high == high;
    } else {
      assert (low + high)[1..] == low[1..] + high;
      FromLEConcat(low[1..], high);
      Pow2Byte(8 * (|low| - 1));
      OneByteMore(low[0], FromLE(low[1..]), Pow2(8 * |low[1..]|), FromLE(high));
    }
  }

  lemma OneByteMore(a: int, low: int, power: int, high: int)
    ensures a + 256 * (low + power * high) == (a + 256 * low) + (256 * power) * high
  {
    Regroup(256, power, high);
  }

  lemma FourBytes(a: Byte, b: Byte, c: Byte, d: Byte)
    ensures FromLE([a, b, c, d]) == a + 256 * b + 65536 * c + 16777216 * d
  {
    FirstByte(a, [b, c, d]);
    FirstByte(b, [c, d]);
    FirstByte(c, [d]);
    FirstByte(d, []);
  }

  lemma Pow2Of32()
    ensures Pow2(8 * 4) == 4294967296
  {
    Pow2Of8();
    Pow2Sum(8, 8);
    Pow2Sum(16, 16);
  }
}
