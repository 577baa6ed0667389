/** Bits, little-endian bytes and congruences of natural numbers, as the cryptographic code uses them. */
module Numbers {
  import opened Xor

  function Pow2(n: nat): (r: nat)
    ensures r >= 1
  {
    if n == 0 then 1 else 2 * Pow2(n - 1)
  }

  lemma {:induction false} Pow2Grows(n: nat, m: nat)
    requires n <= m
    ensures Pow2(n) <= Pow2(m)
  {
    if n < m {
      Pow2Grows(n, m - 1);
    }
  }

  lemma {:induction false} Pow2Sum(m: nat, n: nat)
    ensures Pow2(m + n) == Pow2(m) * Pow2(n)
  {
    if m > 0 {
      Pow2Sum(m - 1, n);
      Twice(Pow2(m - 1), Pow2(n));
    }
  }

  lemma Twice(a: nat, b: nat)
    ensures 2 * (a * b) == (2 * a) * b
  {
  }

  // ---------------------------------------------------------------- bits

  predicate Bit(a: nat, i: nat) {
    Shr(a, i) % 2 == 1
  }

  function And(a: nat, b: nat): nat
    decreases a
  {
    if a == 0 then 0 else 2 * And(a / 2, b / 2) + if a % 2 == 1 && b % 2 == 1 then 1 else 0
  }

  function Or(a: nat, b: nat): nat
    decreases a + b
  {
    if a == 0 && b == 0 then 0 else 2 * Or(a / 2, b / 2) + if a % 2 == 1 || b % 2 == 1 then 1 else 0
  }

  /** `a & ~b` */
  function AndNot(a: nat, b: nat): nat
    decreases a
  {
    if a == 0 then 0 else 2 * AndNot(a / 2, b / 2) + if a % 2 == 1 && b % 2 == 0 then 1 else 0
  }

  lemma {:induction false} BitZero(i: nat)
    ensures !Bit(0, i)
  {
    if i > 0 {
      BitZero(i - 1);
    }
  }

  lemma BitHalf(a: nat, i: nat)
    requires i > 0
    ensures Bit(a, i) == Bit(a / 2, i - 1)
  {
  }

  lemma {:induction false} BitAnd(a: nat, b: nat, i: nat)
    ensures Bit(And(a, b), i) <==> Bit(a, i) && Bit(b, i)
    decreases i
  {
    if a == 0 {
      BitZero(i);
    } else if i > 0 {
      assert And(a, b) / 2 == And(a / 2, b / 2);
      BitAnd(a / 2, b / 2, i - 1);
    }
  }

  lemma {:induction false} BitOr(a: nat, b: nat, i: nat)
    ensures Bit(Or(a, b), i) <==> Bit(a, i) || Bit(b, i)
    decreases i
  {
    if a == 0 && b == 0 {
      BitZero(i);
    } else if i > 0 {
      assert Or(a, b) / 2 == Or(a / 2, b / 2);
      BitOr(a / 2, b / 2, i - 1);
    }
  }

  lemma {:induction false} BitAndNot(a: nat, b: nat, i: nat)
    ensures Bit(AndNot(a, b), i) <==> Bit(a, i) && !Bit(b, i)
    decreases i
  {
    if a == 0 {
      BitZero(i);
    } else if i > 0 {
      assert AndNot(a, b) / 2 == AndNot(a / 2, b / 2);
      BitAndNot(a / 2, b / 2, i - 1);
    }
  }

  /** Numbers with the same bits are equal. */
  lemma {:induction false} SameBits(a: nat, b: nat)
    requires forall i: nat :: Bit(a, i) <==> Bit(b, i)
    ensures a == b
    decreases a + b
  {
    if a != 0 || b != 0 {
      assert Bit(a, 0) <==> Bit(b, 0);
      forall i: nat ensures Bit(a / 2, i) <==> Bit(b / 2, i) {
        BitHalf(a, i + 1);
        BitHalf(b, i + 1);
        assert Bit(a, i + 1) <==> Bit(b, i + 1);
      }
      SameBits(a / 2, b / 2);
    }
  }

  lemma {:induction false} BitPow2(n: nat, i: nat)
    ensures Bit(Pow2(n), i) <==> i == n
    decreases i
  {
    if i > 0 {
      if n > 0 {
        BitPow2(n - 1, i - 1);
      } else {
        BitZero(i - 1);
      }
    }
  }

  /** `(1 << n) - 1` has its lowest `n` bits set. */
  lemma {:induction false} BitMask(n: nat, i: nat)
    ensures Bit(Pow2(n) - 1, i) <==> i < n
    decreases i
  {
    if n == 0 {
      BitZero(i);
    } else if i > 0 {
      assert (Pow2(n) - 1) / 2 == Pow2(n - 1) - 1;
      BitMask(n - 1, i - 1);
    }
  }

  /** Shifting left by three. */
  lemma BitTimes8(a: nat, i: nat)
    ensures Bit(8 * a, i) <==> i >= 3 && Bit(a, i - 3)
  {
    if i >= 3 {
      assert Shr(8 * a, i) == Shr(4 * a, i - 1) == Shr(2 * a, i - 2) == Shr(a, i - 3);
    } else if i == 2 {
      assert Shr(8 * a, 2) == Shr(4 * a, 1) == Shr(2 * a, 0);
    } else if i == 1 {
      assert Shr(8 * a, 1) == Shr(4 * a, 0);
    }
  }

  /** High bits of a small number are clear. */
  lemma {:induction false} BitBeyond(a: nat, n: nat, i: nat)
    requires a < Pow2(n) && i >= n
    ensures !Bit(a, i)
    decreases i
  {
    if i == 0 || a == 0 {
      BitZero(i);
    } else {
      if n > 0 {
        BitBeyond(a / 2, n - 1, i - 1);
      } else {
        BitZero(i);
      }
    }
  }

  /** Masking keeps the low bits. */
  lemma AndLow(y: nat, n: nat, b: nat)
    requires y < Pow2(n)
    ensures And(y + Pow2(n) * b, Pow2(n) - 1) == y
  {
    forall i: nat ensures Bit(And(y + Pow2(n) * b, Pow2(n) - 1), i) == Bit(y, i) {
      BitAnd(y + Pow2(n) * b, Pow2(n) - 1, i);
      BitMask(n, i);
      if i < n {
        LowBits(y, b, n, i);
      } else {
        BitBeyond(y, n, i);
      }
    }
    SameBits(And(y + Pow2(n) * b, Pow2(n) - 1), y);
  }

  /** Masking is a remainder. */
  lemma MaskIsMod(a: nat, n: nat)
    ensures And(a, Pow2(n) - 1) == a % Pow2(n)
  {
    var q, low := DivMod(a, Pow2(n));
    AndLow(low, n, q);
  }

  lemma DivMod(a: nat, m: nat) returns (q: nat, low: nat)
    requires m > 0
    ensures a == low + m * q && low == a % m && low < m
  {
    q, low := a / m, a % m;
  }

  // ---------------------------------------------------------------- bytes

  type Byte = b: nat | b < 256

  function FromLE(bs: seq<Byte>): nat {
    if bs == [] then 0 else bs[0] + 256 * FromLE(bs[1..])
  }

  function ToLE(n: nat, len: nat): (bs: seq<Byte>)
    ensures |bs| == len
  {
    if len == 0 then [] else [n % 256] + ToLE(n / 256, len - 1)
  }

  lemma {:induction false} LERoundTrip(n: nat, len: nat)
    requires n < Pow2(8 * len)
    ensures FromLE(ToLE(n, len)) == n
    decreases len
  {
    if len > 0 {
      assert Pow2(8 * len) == 256 * Pow2(8 * (len - 1)) by {
        Pow2Byte(8 * (len - 1));
      }
      LERoundTrip(n / 256, len - 1);
      assert ToLE(n, len)[1..] == ToLE(n / 256, len - 1);
    }
  }

  lemma Pow2Byte(n: nat)
    ensures Pow2(n + 8) == 256 * Pow2(n)
  {
    assert Pow2(n + 8) == 2 * Pow2(n + 7) == 4 * Pow2(n + 6) == 8 * Pow2(n + 5) == 16 * Pow2(n + 4);
    assert Pow2(n + 4) == 2 * Pow2(n + 3) == 4 * Pow2(n + 2) == 8 * Pow2(n + 1) == 16 * Pow2(n);
  }

  lemma {:induction false} FromLEBound(bs: seq<Byte>)
    ensures FromLE(bs) < Pow2(8 * |bs|)
  {
    if bs != [] {
      FromLEBound(bs[1..]);
      Pow2Byte(8 * (|bs| - 1));
    }
  }

  lemma {:induction false} ShrPow2(b: nat, rest: nat, n: nat)
    requires b < Pow2(n)
    ensures Shr(b + Pow2(n) * rest, n) == rest
    decreases n
  {
    if n > 0 {
      assert b + Pow2(n) * rest == b + 2 * (Pow2(n - 1) * rest);
      ShrPow2(b / 2, rest, n - 1);
    }
  }

  /** What is added above the lowest `n` bits does not touch them. */
  lemma {:induction false} LowBits(b: nat, rest: nat, n: nat, i: nat)
    requires i < n
    ensures Bit(b + Pow2(n) * rest, i) == Bit(b, i)
    decreases i
  {
    assert b + Pow2(n) * rest == b + 2 * (Pow2(n - 1) * rest);
    if i > 0 {
      LowBits(b / 2, rest, n - 1, i - 1);
    }
  }

  lemma Pow2Of8()
    ensures Pow2(8) == 256
  {
    Pow2Byte(0);
  }

  lemma {:induction false} ShrShr(a: nat, i: nat, j: nat)
    ensures Shr(Shr(a, i), j) == Shr(a, i + j)
    decreases i
  {
    if i > 0 {
      ShrShr(a / 2, i - 1, j);
    }
  }

  /** Bit `i` of a little-endian number sits in byte `i / 8`. */
  lemma {:induction false} BitOfBytes(bs: seq<Byte>, i: nat)
    ensures Bit(FromLE(bs), i) <==> i / 8 < |bs| && Bit(bs[i / 8], i % 8)
    decreases |bs|
  {
    if bs == [] {
      BitZero(i);
    } else {
      var rest := FromLE(bs[1..]);
      Pow2Of8();
      if i < 8 {
        LowBits(bs[0], rest, 8, i);
      } else {
        ShrPow2(bs[0], rest, 8);
        ShrShr(FromLE(bs), 8, i - 8);
        BitOfBytes(bs[1..], i - 8);
      }
    }
  }

  function Repeated(n: nat, b: Byte): (bs: seq<Byte>)
    ensures |bs| == n
  {
    seq(n, i => b)
  }

  /** Bytes of ones below a top byte. */
  lemma {:induction false} OnesThen(n: nat, top: Byte)
    ensures FromLE(Repeated(n, 0xFF) + [top]) == Pow2(8 * n) * (top + 1) - 1
  {
    var bs := Repeated(n, 0xFF) + [top];
    if n == 0 {
      assert bs == [top] && bs[1..] == [];
    } else {
      assert bs[1..] == Repeated(n - 1, 0xFF) + [top];
      OnesThen(n - 1, top);
      Pow2Byte(8 * (n - 1));
      Times256(Pow2(8 * (n - 1)), top + 1);
    }
  }

  lemma Times256(a: nat, b: nat)
    ensures 256 * (a * b) == (256 * a) * b
  {
  }
}
