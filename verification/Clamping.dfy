/** The three ways the code clamps a 256-bit secret into a Curve25519 scalar. */
module Clamping {
  import opened Numbers
  import opened Xor

  /** On the number, as `_x25519` does. */
  function LadderClamp(k: nat): nat {
    Or(And(AndNot(k, 7), Pow2(254) - 1), Pow2(254))
  }

  /** On the number, as `_secret_expand` does. */
  function SigningClamp(k: nat): nat {
    Or(And(k, TopMask()), Pow2(254))
  }

  /** `(1 << 254) - 8` */
  function TopMask(): nat {
    Pow2Grows(3, 254);
    Pow2(254) - 8
  }

  /** On the bytes, as `_ed25519_seed_to_curve25519` does. */
  function ByteClamp(h: seq<Byte>): (c: seq<Byte>)
    requires |h| == 32
    ensures |c| == 32
  {
    ByteAnd(h[0], 248);
    ByteAnd(h[31], 127);
    ByteOr(And(h[31], 127), 64);
    h[0 := And(h[0], 248)][31 := Or(And(h[31], 127), 64)]
  }

  /** What every clamp does to bit `i`. */
  predicate ClampedBit(k: nat, i: nat) {
    i == 254 || (3 <= i < 254 && Bit(k, i))
  }

  lemma {:induction false} AndBound(a: nat, b: nat)
    ensures And(a, b) <= a
  {
    if a != 0 {
      AndBound(a / 2, b / 2);
    }
  }

  lemma ByteAnd(a: Byte, b: Byte)
    ensures And(a, b) < 256
  {
    AndBound(a, b);
  }

  lemma {:induction false} OrBound(a: nat, b: nat, n: nat)
    requires a < Pow2(n) && b < Pow2(n)
    ensures Or(a, b) < Pow2(n)
    decreases n
  {
    if n > 0 {
      OrBound(a / 2, b / 2, n - 1);
    }
  }

  lemma ByteOr(a: Byte, b: Byte)
    ensures Or(a, b) < 256
  {
    Pow2Of8();
    OrBound(a, b, 8);
  }

  lemma BitOf7(i: nat)
    ensures Bit(7, i) <==> i < 3
  {
    BitMask(3, i);
    assert Pow2(3) == 2 * Pow2(2) == 4 * Pow2(1);
  }

  lemma BitOf248(i: nat)
    requires i < 8
    ensures Bit(248, i) <==> i >= 3
  {
    BitTimes8(31, i);
    if i >= 3 {
      BitMask(5, i - 3);
      assert Pow2(5) == 2 * Pow2(4) == 4 * Pow2(3) == 8 * Pow2(2) == 16 * Pow2(1);
    }
  }

  lemma BitOf127(i: nat)
    ensures Bit(127, i) <==> i < 7
  {
    BitMask(7, i);
    Pow2Of8();
    assert Pow2(8) == 2 * Pow2(7);
  }

  lemma BitOf64(i: nat)
    ensures Bit(64, i) <==> i == 6
  {
    BitPow2(6, i);
    Pow2Of8();
    assert Pow2(8) == 2 * Pow2(7) == 4 * Pow2(6);
  }

  lemma BitOfTopMask(i: nat)
    ensures Bit(TopMask(), i) <==> 3 <= i < 254
  {
    MaskFrom3(254, i);
    Pow2Grows(3, 254);
  }

  lemma MaskFrom3(n: nat, i: nat)
    requires n >= 3
    ensures Pow2(n) >= 8
    ensures Bit(Pow2(n) - 8, i) <==> 3 <= i < n
  {
    assert Pow2(n) == 2 * Pow2(n - 1) == 4 * Pow2(n - 2) == 8 * Pow2(n - 3);
    BitTimes8(Pow2(n - 3) - 1, i);
    if i >= 3 {
      BitMask(n - 3, i - 3);
    }
  }

  lemma LadderClampBits(k: nat, i: nat)
    ensures Bit(LadderClamp(k), i) <==> ClampedBit(k, i)
  {
    var low := AndNot(k, 7);
    BitAndNot(k, 7, i);
    BitOf7(i);
    BitAnd(low, Pow2(254) - 1, i);
    BitMask(254, i);
    BitOr(And(low, Pow2(254) - 1), Pow2(254), i);
    BitPow2(254, i);
  }

  lemma SigningClampBits(k: nat, i: nat)
    ensures Bit(SigningClamp(k), i) <==> ClampedBit(k, i)
  {
    BitAnd(k, TopMask(), i);
    BitOfTopMask(i);
    BitOr(And(k, TopMask()), Pow2(254), i);
    BitPow2(254, i);
  }

  lemma ByteClampBits(h: seq<Byte>, i: nat)
    requires |h| == 32
    ensures Bit(FromLE(ByteClamp(h)), i) <==> ClampedBit(FromLE(h), i)
  {
    BitOfBytes(ByteClamp(h), i);
    BitOfBytes(h, i);
    if i / 8 < 32 {
      OneByte(h, i / 8, i % 8);
    }
  }

  lemma OneByte(h: seq<Byte>, j: nat, i: nat)
    requires |h| == 32 && j < 32 && i < 8
    ensures Bit(ByteClamp(h)[j], i) <==> 8 * j + i == 254 || (3 <= 8 * j + i < 254 && Bit(h[j], i))
  {
    if j == 0 {
      LowByte(h[0], i);
    } else if j == 31 {
      LastByte(h[31], i);
    }
  }

  lemma LowByte(b: Byte, i: nat)
    requires i < 8
    ensures Bit(And(b, 248), i) <==> i >= 3 && Bit(b, i)
  {
    BitAnd(b, 248, i);
    BitOf248(i);
  }

  lemma LastByte(b: Byte, i: nat)
    requires i < 8
    ensures Bit(Or(And(b, 127), 64), i) <==> i == 6 || (i < 6 && Bit(b, i))
  {
    BitOr(And(b, 127), 64, i);
    BitAnd(b, 127, i);
    BitOf127(i);
    BitOf64(i);
  }

  /** The three forms are one clamp; clamping an already clamped secret changes nothing. */
  lemma OneClamp(h: seq<Byte>)
    requires |h| == 32
    ensures FromLE(ByteClamp(h)) == SigningClamp(FromLE(h)) == LadderClamp(FromLE(h))
    ensures LadderClamp(FromLE(ByteClamp(h))) == SigningClamp(FromLE(h))
  {
    var k, c := FromLE(h), FromLE(ByteClamp(h));
    forall i: nat
      ensures Bit(c, i) == Bit(SigningClamp(k), i) == Bit(LadderClamp(k), i) == Bit(LadderClamp(c), i)
    {
      ByteClampBits(h, i);
      SigningClampBits(k, i);
      LadderClampBits(k, i);
      LadderClampBits(c, i);
    }
    SameBits(c, SigningClamp(k));
    SameBits(LadderClamp(k), c);
    SameBits(LadderClamp(c), c);
  }

  /** A clamped scalar is a multiple of the cofactor 8 between 2^254 and 2^255. */
  lemma ClampedRange(k: nat)
    ensures LadderClamp(k) % 8 == 0 && Pow2(254) <= LadderClamp(k) < Pow2(255)
  {
    var c := LadderClamp(k);
    LadderClampBits(k, 0);
    LadderClampBits(k, 1);
    LadderClampBits(k, 2);
    assert !Bit(c, 0) && !Bit(c, 1) && !Bit(c, 2);
    LowThree(c);
    forall i: nat | i >= 255 ensures !Bit(c, i) {
      LadderClampBits(k, i);
    }
    NoHighBits(c, 255);
    LadderClampBits(k, 254);
    if c < Pow2(254) {
      BitBeyond(c, 254, 254);
    }
  }

  lemma LowThree(c: nat)
    requires !Bit(c, 0) && !Bit(c, 1) && !Bit(c, 2)
    ensures c % 8 == 0
  {
    assert Shr(c, 2) == Shr(c / 2, 1) == c / 2 / 2;
    assert Shr(c, 1) == c / 2;
  }

  lemma {:induction false} NoHighBits(c: nat, n: nat)
    requires forall i: nat :: i >= n ==> !Bit(c, i)
    ensures c < Pow2(n)
    decreases n
  {
    if n == 0 {
      forall i: nat ensures Bit(c, i) == Bit(0, i) {
        BitZero(i);
      }
      SameBits(c, 0);
    } else {
      forall i: nat | i >= n - 1 ensures !Bit(c / 2, i) {
        assert !Bit(c, i + 1);
      }
      NoHighBits(c / 2, n - 1);
    }
  }
}
