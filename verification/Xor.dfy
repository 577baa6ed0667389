/** The XOR metric on identifiers, by bits and prefixes. */
module Xor {

  /** Bitwise exclusive or of natural numbers. */
  function Distance(a: nat, b: nat): nat
    decreases a + b
  {
    if a == 0 && b == 0 then 0 else 2 * Distance(a / 2, b / 2) + (a % 2 + b % 2) % 2
  }

  function Shr(a: nat, i: nat): nat {
    if i == 0 then a else Shr(a / 2, i - 1)
  }

  function BitLength(a: nat): nat {
    if a == 0 then 0 else 1 + BitLength(a / 2)
  }

  /** Which k-bucket of `own` holds `id`: the position of the first differing bit. */
  function BucketIndex(own: nat, id: nat): nat {
    var d := Distance(own, id);
    if d != 0 then BitLength(d) - 1 else 0
  }

  lemma {:induction false} DistanceSymmetric(a: nat, b: nat)
    ensures Distance(a, b) == Distance(b, a)
    decreases a + b
  {
    if a != 0 || b != 0 {
      DistanceSymmetric(a / 2, b / 2);
    }
  }

  lemma {:induction false} DistanceToSelf(a: nat)
    ensures Distance(a, a) == 0
  {
    if a != 0 {
      DistanceToSelf(a / 2);
    }
  }

  /** From one target all distances differ. */
  lemma {:induction false} DistanceInjective(a: nat, b: nat, t: nat)
    requires Distance(a, t) == Distance(b, t)
    ensures a == b
    decreases a + b + t
  {
    if a != 0 || b != 0 || t != 0 {
      assert Distance(a, t) == 2 * Distance(a / 2, t / 2) + (a % 2 + t % 2) % 2;
      assert Distance(b, t) == 2 * Distance(b / 2, t / 2) + (b % 2 + t % 2) % 2;
      SameBitAfterXor(a % 2, b % 2, t % 2);
      DistanceInjective(a / 2, b / 2, t / 2);
    }
  }

  lemma SameBitAfterXor(a: nat, b: nat, t: nat)
    requires a < 2 && b < 2 && t < 2
    ensures (a + t) % 2 == (b + t) % 2 ==> a == b
  {
  }

  lemma {:induction false} ShrDistance(a: nat, b: nat, i: nat)
    ensures Shr(Distance(a, b), i) == Distance(Shr(a, i), Shr(b, i))
    decreases i
  {
    if i > 0 {
      assert Distance(a, b) / 2 == Distance(a / 2, b / 2);
      ShrDistance(a / 2, b / 2, i - 1);
    }
  }

  lemma {:induction false} ShrMonotone(a: nat, b: nat, i: nat)
    requires a <= b
    ensures Shr(a, i) <= Shr(b, i)
  {
    if i > 0 {
      ShrMonotone(a / 2, b / 2, i - 1);
    }
  }

  lemma {:induction false} TopBit(a: nat)
    requires a > 0
    ensures Shr(a, BitLength(a) - 1) == 1
  {
    if a > 1 {
      TopBit(a / 2);
    }
  }

  /** The bits of `x` from its bucket position up are determined by the owner. */
  lemma BucketPrefix(n: nat, x: nat)
    requires x != n
    ensures Distance(Shr(n, BucketIndex(n, x)), Shr(x, BucketIndex(n, x))) == 1 == Shr(Distance(n, x), BucketIndex(n, x))
  {
    NotSelf(n, x);
    TopBit(Distance(n, x));
    ShrDistance(n, x, BucketIndex(n, x));
  }

  /** Two identifiers in one bucket of `n` share every bit down to the one where they leave `n`. */
  lemma SameBucketSamePrefix(n: nat, x: nat, c: nat)
    requires x != n && c != n && BucketIndex(n, x) == BucketIndex(n, c)
    ensures Shr(x, BucketIndex(n, x)) == Shr(c, BucketIndex(n, x))
  {
    BucketPrefix(n, x);
    BucketPrefix(n, c);
    CancelLeft(Shr(n, BucketIndex(n, x)), Shr(x, BucketIndex(n, x)), Shr(c, BucketIndex(n, x)));
  }

  lemma CancelLeft(n: nat, a: nat, b: nat)
    requires Distance(n, a) == Distance(n, b)
    ensures a == b
  {
    DistanceSymmetric(n, a);
    DistanceSymmetric(n, b);
    DistanceInjective(a, b, n);
  }

  lemma NotSelf(a: nat, b: nat)
    requires a != b
    ensures Distance(a, b) > 0
  {
    if Distance(a, b) == 0 {
      DistanceToSelf(b);
      DistanceInjective(a, b, b);
    }
  }

  lemma SharedPrefixIsClose(r: nat, x: nat, n: nat, i: nat)
    requires Shr(r, i) == Shr(x, i) && Shr(Distance(n, x), i) == 1
    ensures Distance(r, x) < Distance(n, x)
  {
    ShrDistance(r, x, i);
    DistanceToSelf(Shr(x, i));
    if Distance(r, x) >= Distance(n, x) {
      ShrMonotone(Distance(n, x), Distance(r, x), i);
    }
  }

  /** Every contact in the bucket of `x` is closer to `x` than the table's owner. */
  lemma BucketMateIsCloser(n: nat, x: nat, c: nat)
    requires x != n && c != n && BucketIndex(n, x) == BucketIndex(n, c)
    ensures Distance(c, x) < Distance(n, x)
  {
    SameBucketSamePrefix(n, x, c);
    BucketPrefix(n, x);
    SharedPrefixIsClose(c, x, n, BucketIndex(n, x));
  }

  /** Seen from any target, the identifiers that share a prefix form an interval. */
  lemma PrefixIsInterval(x: nat, c: nat, r: nat, t: nat, i: nat)
    requires Shr(x, i) == Shr(c, i) && Distance(x, t) <= Distance(r, t) <= Distance(c, t)
    ensures Shr(r, i) == Shr(x, i)
  {
    ShrDistance(x, t, i);
    ShrDistance(c, t, i);
    ShrDistance(r, t, i);
    ShrMonotone(Distance(x, t), Distance(r, t), i);
    ShrMonotone(Distance(r, t), Distance(c, t), i);
    DistanceInjective(Shr(r, i), Shr(x, i), Shr(t, i));
  }

  /** So whatever lies between two bucket mates is closer to `x` than the owner as well. */
  lemma BetweenBucketMates(n: nat, x: nat, c: nat, r: nat, t: nat)
    requires x != n && c != n && BucketIndex(n, x) == BucketIndex(n, c)
    requires Distance(x, t) <= Distance(r, t) <= Distance(c, t)
    ensures Distance(r, x) < Distance(n, x)
  {
    SameBucketSamePrefix(n, x, c);
    BucketPrefix(n, x);
    PrefixIsInterval(x, c, r, t, BucketIndex(n, x));
    SharedPrefixIsClose(r, x, n, BucketIndex(n, x));
  }
}
