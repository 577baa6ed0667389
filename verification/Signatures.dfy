/** Pure-Python Ed25519 signing and verifying, on top of the curve and its encodings. */
module Signatures {
  import opened Clamping
  import opened Edwards
  import opened Field
  import opened Groups
  import opened Numbers
  import opened PointCodec
  import opened Wire

  /** `_q`, 2^252 + 27742317777372353535851937790883648493, by its little-endian bytes. */
  const ORDER_BYTES: seq<Byte> :=
    [0xED] + ([0xD3, 0xF5, 0x5C, 0x1A, 0x63, 0x12, 0x58, 0xD6, 0x9C, 0xF7, 0xA2, 0xDE, 0xF9, 0xDE, 0x14]
              + Repeated(15, 0) + [0x10])

  const ORDER: Positive := FromLE(ORDER_BYTES)

  /** What SHA-512 returns. */
  type Digest = bs: seq<Byte> | |bs| == 64 witness Repeated(64, 0)

  /** `_By` */
  const BASE_Y: int := Rem(4 * Inv(5))

  /** `_B`; the module refuses to load when `_recover_x` finds no `_Bx`. */
  function Base(): Point
    requires RecoverX(BASE_Y, 0).Some?
  {
    var x := RecoverX(BASE_Y, 0).value;
    Point(x, BASE_Y, 1, Rem(x * BASE_Y))
  }

  /** `b` is the base point: the one with `y = 4/5` and even `x`, of order `ORDER`. */
  predicate IsBase<G(==)>(c: Curve<G>, b: G) {
    c.ay(b) == BASE_Y && c.ax(b) % 2 == 0 && Mul(c.group, ORDER, b) == c.group.zero
  }

  /** Everything assumed about the field and the curve. */
  ghost predicate Ed25519<G(!new)>(c: Curve<G>, b: G) {
    FieldFacts() && EdwardsGroup(c) && IsBase(c, b)
  }

  lemma BaseRepresents<G(!new)>(c: Curve<G>, b: G)
    requires Ed25519(c, b)
    ensures RecoverX(BASE_Y, 0).Some? && Represents(c, Base(), b)
  {
    RecoverFinds(c, b, 0);
    DecompressedRepresents(c, c.ax(b), BASE_Y, b);
  }

  /** The base point has y = 4/5. */
  lemma BaseYIs()
    requires FieldFacts()
    ensures Eq(5 * BASE_Y, 4)
  {
    BasePoint(5);
  }

  lemma BasePoint(n: int)
    requires FieldFacts() && n == 5
    ensures Eq(n * Rem(4 * Inv(n)), 4)
  {
    AtLeast13();
    Small(n);
    InverseWorks(n);
    Reduced(4 * Inv(n));
    EqTimes(Rem(4 * Inv(n)), 4 * Inv(n), n);
    EqTimes(n * Inv(n), 1, 4);
    Commute(n, Rem(4 * Inv(n)));
    assert (4 * Inv(n)) * n == n * Inv(n) * 4;
  }

  // ---------------------------------------------------------------- the operations

  /** `_secret_expand`: the scalar and the nonce prefix. */
  function SecretScalar(sha: seq<Byte> -> Digest, seed: seq<Byte>): nat {
    SigningClamp(FromLE(sha(seed)[..32]))
  }

  function NoncePrefix(sha: seq<Byte> -> Digest, seed: seq<Byte>): seq<Byte> {
    sha(seed)[32..]
  }

  /** `_pure_public_key` */
  function PublicKey(sha: seq<Byte> -> Digest, seed: seq<Byte>): (key: seq<Byte>)
    requires RecoverX(BASE_Y, 0).Some?
    ensures |key| == 32
  {
    Compress(ScalarMult(Base(), SecretScalar(sha, seed)))
  }

  function NonceScalar(sha: seq<Byte> -> Digest, seed: seq<Byte>, message: seq<Byte>): (r: nat)
    ensures r < ORDER
  {
    FromLE(sha(NoncePrefix(sha, seed) + message)) % ORDER
  }

  function Challenge(sha: seq<Byte> -> Digest, r: seq<Byte>, key: seq<Byte>, message: seq<Byte>): (h: nat)
    ensures h < ORDER
  {
    FromLE(sha(r + key + message)) % ORDER
  }

  function Times(h: nat, a: nat): nat {
    h * a
  }

  function Response(r: nat, h: nat, a: nat): (s: nat)
    ensures s < ORDER
  {
    (r + Times(h, a)) % ORDER
  }

  /** `_pure_sign` */
  function PureSign(sha: seq<Byte> -> Digest, seed: seq<Byte>, message: seq<Byte>): (signature: seq<Byte>)
    requires RecoverX(BASE_Y, 0).Some?
    ensures |signature| == 64
  {
    var a := SecretScalar(sha, seed);
    var r := NonceScalar(sha, seed, message);
    var rr := Compress(ScalarMult(Base(), r));
    var h := Challenge(sha, rr, PublicKey(sha, seed), message);
    rr + ToLE(Response(r, h, a), 32)
  }

  /** `_pure_verify` */
  predicate PureVerify(sha: seq<Byte> -> Digest, key: seq<Byte>, message: seq<Byte>, signature: seq<Byte>)
    requires RecoverX(BASE_Y, 0).Some?
  {
    && |key| == 32 && |signature| == 64
    && Decompress(key).Some? && Decompress(signature[..32]).Some?
    && var s := FromLE(signature[32..]);
    && s < ORDER
    && var h := Challenge(sha, signature[..32], key, message);
    PointEqual(ScalarMult(Base(), s),
               EdwardsAdd(Decompress(signature[..32]).value, ScalarMult(Decompress(key).value, h)))
  }

  // ---------------------------------------------------------------- what verification decides

  /** The equation of section 5.1.7 of RFC 8032, without the cofactor: `s B = R + h A`. */
  predicate SignatureEquation<G(==)>(c: Curve<G>, b: G, r: G, a: G, s: nat, h: nat) {
    Mul(c.group, s, b) == c.group.add(r, Mul(c.group, h, a))
  }

  lemma VerifyEquation<G(!new)>(c: Curve<G>, b: G, rp: Point, ap: Point, r: G, a: G, s: nat, h: nat)
    requires Ed25519(c, b) && RecoverX(BASE_Y, 0).Some? && Represents(c, rp, r) && Represents(c, ap, a)
    ensures PointEqual(ScalarMult(Base(), s), EdwardsAdd(rp, ScalarMult(ap, h)))
       <==> SignatureEquation(c, b, r, a, s, h)
  {
    BaseRepresents(c, b);
    ScalarMultMultiplies(c, Base(), s, b);
    ScalarMultMultiplies(c, ap, h, a);
    EdwardsAddAdds(c, rp, ScalarMult(ap, h), r, Mul(c.group, h, a));
    PointEqualMeans(c, ScalarMult(Base(), s), EdwardsAdd(rp, ScalarMult(ap, h)),
                    Mul(c.group, s, b), c.group.add(r, Mul(c.group, h, a)));
  }

  /** A signature is accepted exactly when both points decode, `s` is reduced and the equation holds in the group. */
  lemma VerifyExactly<G(!new)>(c: Curve<G>, b: G, sha: seq<Byte> -> Digest,
                               key: seq<Byte>, message: seq<Byte>, signature: seq<Byte>)
    requires Ed25519(c, b)
    ensures RecoverX(BASE_Y, 0).Some?
    ensures PureVerify(sha, key, message, signature) <==>
            && |key| == 32 && |signature| == 64
            && Decompress(key).Some? && Decompress(signature[..32]).Some?
            && FromLE(signature[32..]) < ORDER
            && var h := FromLE(sha(signature[..32] + key + message)) % ORDER;
            Mul(c.group, FromLE(signature[32..]), b)
              == c.group.add(Decoded(c, Decompress(signature[..32]).value), Mul(c.group, h, Decoded(c, Decompress(key).value)))
  {
    BaseRepresents(c, b);
    if |key| == 32 && |signature| == 64 && Decompress(key).Some? && Decompress(signature[..32]).Some? {
      var ap, rp := Decompress(key).value, Decompress(signature[..32]).value;
      DecompressExactly(c, key);
      DecompressExactly(c, signature[..32]);
      VerifyEquation(c, b, rp, ap, Decoded(c, rp), Decoded(c, ap), FromLE(signature[32..]),
                     Challenge(sha, signature[..32], key, message));
    }
  }

  // ---------------------------------------------------------------- signatures verify

  lemma LowBytes()
    ensures FromLE(ORDER_BYTES[..16]) == 27742317777372353535851937790883648493
  {
    var a, b: seq<Byte> := [0xED, 0xD3, 0xF5, 0x5C] + [0x1A, 0x63, 0x12, 0x58], [0xD6, 0x9C, 0xF7, 0xA2] + [0xDE, 0xF9, 0xDE, 0x14];
    assert ORDER_BYTES[..16] == a + b;
    EightBytes(0xED, 0xD3, 0xF5, 0x5C, 0x1A, 0x63, 0x12, 0x58);
    EightBytes(0xD6, 0x9C, 0xF7, 0xA2, 0xDE, 0xF9, 0xDE, 0x14);
    FromLEConcat(a, b);
    Pow2Of64();
  }

  lemma EightBytes(a: Byte, b: Byte, c: Byte, d: Byte, e: Byte, f: Byte, g: Byte, h: Byte)
    ensures FromLE([a, b, c, d] + [e, f, g, h])
         == a + 0x100 * b + 0x1_0000 * c + 0x100_0000 * d + 0x1_0000_0000 * (e + 0x100 * f + 0x1_0000 * g + 0x100_0000 * h)
  {
    FourBytes(a, b, c, d);
    FourBytes(e, f, g, h);
    FromLEConcat([a, b, c, d], [e, f, g, h]);
    Pow2Of32();
  }

  lemma Pow2Of64()
    ensures Pow2(8 * 8) == 0x1_0000_0000_0000_0000
  {
    Pow2Of32();
    Pow2Sum(32, 32);
  }

  lemma {:induction false} Zeros(n: nat, top: Byte)
    ensures FromLE(Repeated(n, 0) + [top]) == Pow2(8 * n) * top
  {
    FromLEConcat(Repeated(n, 0), [top]);
    FirstByte(top, []);
    NoBytes(n);
  }

  lemma {:induction false} NoBytes(n: nat)
    ensures FromLE(Repeated(n, 0)) == 0
  {
    if n > 0 {
      NoBytes(n - 1);
      assert Repeated(n, 0)[1..] == Repeated(n - 1, 0);
    }
  }

  lemma OrderIs()
    ensures ORDER == Pow2(252) + 27742317777372353535851937790883648493
  {
    var low, high := ORDER_BYTES[..16], ORDER_BYTES[16..];
    assert low + high == ORDER_BYTES && high == Repeated(15, 0) + [0x10];
    FromLEConcat(low, high);
    LowBytes();
    Zeros(15, 0x10);
    Pow2Sum(128, 124);
    Pow2Sum(120, 4);
    assert Pow2(4) == 16;
  }

  lemma OrderFits()
    ensures ORDER < 2 * TWO_255
  {
    FromLE32(ORDER_BYTES);
  }

  lemma MulTimes<G(!new)>(c: Curve<G>, b: G, h: nat, a: nat)
    requires Abelian(c.group)
    ensures Mul(c.group, h, Mul(c.group, a, b)) == Mul(c.group, Times(h, a), b)
  {
    MulMul(c.group, h, a, b);
  }

  lemma ReducedSum<G(!new)>(c: Curve<G>, b: G, r: nat, t: nat)
    requires Abelian(c.group) && IsBase(c, b)
    ensures Mul(c.group, (r + t) % ORDER, b) == c.group.add(Mul(c.group, r, b), Mul(c.group, t, b))
  {
    MulAdd(c.group, r, t, b);
    MulReduced(c.group, r + t, ORDER, b);
  }

  lemma ResponseMultiple<G(!new)>(c: Curve<G>, b: G, r: nat, h: nat, a: nat)
    requires Abelian(c.group) && IsBase(c, b)
    ensures Mul(c.group, Response(r, h, a), b) == c.group.add(Mul(c.group, r, b), Mul(c.group, Times(h, a), b))
  {
    ReducedSum(c, b, r, Times(h, a));
  }

  /** The response scalar closes the equation. */
  lemma ResponseSolves<G(!new)>(c: Curve<G>, b: G, a: nat, r: nat, h: nat)
    requires Abelian(c.group) && IsBase(c, b)
    ensures SignatureEquation(c, b, Mul(c.group, r, b), Mul(c.group, a, b), Response(r, h, a), h)
  {
    ResponseMultiple(c, b, r, h, a);
    MulTimes(c, b, h, a);
  }

  /** What the encoding of a represented point decompresses to. */
  lemma RoundTrip<G(!new)>(c: Curve<G>, p: Point, g: G)
    requires FieldFacts() && EdwardsGroup(c) && Represents(c, p, g)
    ensures Decompress(Compress(p)).Some? && Represents(c, Decompress(Compress(p)).value, g)
  {
    CompressEncodes(c, p, g);
    DecompressUndoes(c, g);
    DecompressedRepresents(c, c.ax(g), c.ay(g), g);
  }

  /** Every signature made with a seed verifies under its public key, for every message. */
  lemma SignedVerifies<G(!new)>(c: Curve<G>, b: G, sha: seq<Byte> -> Digest, seed: seq<Byte>, message: seq<Byte>)
    requires Ed25519(c, b)
    ensures RecoverX(BASE_Y, 0).Some?
    ensures PureVerify(sha, PublicKey(sha, seed), message, PureSign(sha, seed, message))
  {
    BaseRepresents(c, b);
    var a, r := SecretScalar(sha, seed), NonceScalar(sha, seed, message);
    var ap, rp := ScalarMult(Base(), a), ScalarMult(Base(), r);
    var key, rr := Compress(ap), Compress(rp);
    var h := Challenge(sha, rr, key, message);
    var s := Response(r, h, a);
    assert PureSign(sha, seed, message) == rr + ToLE(s, 32);
    assert (rr + ToLE(s, 32))[..32] == rr && (rr + ToLE(s, 32))[32..] == ToLE(s, 32);
    OrderFits();
    ThirtyTwoBytes(s);
    ScalarMultMultiplies(c, Base(), a, b);
    ScalarMultMultiplies(c, Base(), r, b);
    RoundTrip(c, ap, Mul(c.group, a, b));
    RoundTrip(c, rp, Mul(c.group, r, b));
    ResponseSolves(c, b, a, r, h);
    VerifyEquation(c, b, Decompress(rr).value, Decompress(key).value,
                   Mul(c.group, r, b), Mul(c.group, a, b), s, h);
  }

  // ---------------------------------------------------------------- what a signature commits to

  /** The key encodes the multiple of the base point by the clamped first half of the hashed seed. */
  lemma KeyIs<G(!new)>(c: Curve<G>, b: G, sha: seq<Byte> -> Digest, seed: seq<Byte>)
    requires Ed25519(c, b) && RecoverX(BASE_Y, 0).Some?
    ensures var a, key := SigningClamp(FromLE(sha(seed)[..32])), PublicKey(sha, seed);
            Decompress(key).Some? && Represents(c, Decompress(key).value, Mul(c.group, a, b))
  {
    MultipleDecodes(c, b, SecretScalar(sha, seed));
  }

  /** The first half of a signature encodes the multiple by the digest of the second half of the hashed
      seed and the message. */
  lemma NonceIs<G(!new)>(c: Curve<G>, b: G, sha: seq<Byte> -> Digest, seed: seq<Byte>, message: seq<Byte>)
    requires Ed25519(c, b) && RecoverX(BASE_Y, 0).Some?
    ensures var r, signature := FromLE(sha(sha(seed)[32..] + message)) % ORDER, PureSign(sha, seed, message);
            Decompress(signature[..32]).Some? && Represents(c, Decompress(signature[..32]).value, Mul(c.group, r, b))
  {
    MultipleDecodes(c, b, NonceScalar(sha, seed, message));
    HalvesOf(sha, seed, message);
  }

  /** The second half is `r + h a` modulo the order, for the challenge over first half, key and message. */
  lemma ResponseIs(sha: seq<Byte> -> Digest, seed: seq<Byte>, message: seq<Byte>)
    requires RecoverX(BASE_Y, 0).Some?
    ensures var a, r := SigningClamp(FromLE(sha(seed)[..32])), FromLE(sha(sha(seed)[32..] + message)) % ORDER;
            var key, signature := PublicKey(sha, seed), PureSign(sha, seed, message);
            FromLE(signature[32..]) == (r + (FromLE(sha(signature[..32] + key + message)) % ORDER) * a) % ORDER
  {
    HalvesOf(sha, seed, message);
  }

  lemma MultipleDecodes<G(!new)>(c: Curve<G>, b: G, n: nat)
    requires Ed25519(c, b) && RecoverX(BASE_Y, 0).Some?
    ensures var s := Compress(ScalarMult(Base(), n));
            Decompress(s).Some? && Represents(c, Decompress(s).value, Mul(c.group, n, b))
  {
    BaseRepresents(c, b);
    ScalarMultMultiplies(c, Base(), n, b);
    RoundTrip(c, ScalarMult(Base(), n), Mul(c.group, n, b));
  }

  /** The two halves of a signature. */
  lemma HalvesOf(sha: seq<Byte> -> Digest, seed: seq<Byte>, message: seq<Byte>)
    requires RecoverX(BASE_Y, 0).Some?
    ensures var signature, rr := PureSign(sha, seed, message), Compress(ScalarMult(Base(), NonceScalar(sha, seed, message)));
            && signature[..32] == rr
            && FromLE(signature[32..])
                 == Response(NonceScalar(sha, seed, message), Challenge(sha, rr, PublicKey(sha, seed), message), SecretScalar(sha, seed))
  {
    var rr := Compress(ScalarMult(Base(), NonceScalar(sha, seed, message)));
    var s := Response(NonceScalar(sha, seed, message), Challenge(sha, rr, PublicKey(sha, seed), message), SecretScalar(sha, seed));
    assert (rr + ToLE(s, 32))[..32] == rr && (rr + ToLE(s, 32))[32..] == ToLE(s, 32);
    OrderFits();
    ThirtyTwoBytes(s);
  }

  /** What is accepted for one message under a key of full order is accepted for another exactly when
      both messages give the same challenge. */
  lemma SignatureBinds<G(!new)>(c: Curve<G>, b: G, sha: seq<Byte> -> Digest, key: seq<Byte>, signature: seq<Byte>,
                                message: seq<Byte>, other: seq<Byte>)
    requires Ed25519(c, b) && RecoverX(BASE_Y, 0).Some? && PureVerify(sha, key, message, signature)
    requires HasOrder(c.group, Decoded(c, Decompress(key).value), ORDER)
    ensures PureVerify(sha, key, other, signature) <==>
              FromLE(sha(signature[..32] + key + other)) % ORDER == FromLE(sha(signature[..32] + key + message)) % ORDER
  {
    var h, k := Challenge(sha, signature[..32], key, message), Challenge(sha, signature[..32], key, other);
    var r, a, s := Decoded(c, Decompress(signature[..32]).value), Decoded(c, Decompress(key).value), FromLE(signature[32..]);
    VerifyExactly(c, b, sha, key, message, signature);
    VerifyExactly(c, b, sha, key, other, signature);
    assert SignatureEquation(c, b, r, a, s, h);
    if PureVerify(sha, key, other, signature) {
      SameChallenge(c, b, r, a, s, h, k);
    }
  }

  lemma SameChallenge<G(!new)>(c: Curve<G>, b: G, r: G, a: G, s: nat, h: nat, k: nat)
    requires Abelian(c.group) && IsBase(c, b) && HasOrder(c.group, a, ORDER) && s < ORDER && h < ORDER && k < ORDER
    requires SignatureEquation(c, b, r, a, s, h) && SignatureEquation(c, b, r, a, s, k)
    ensures h == k
  {
    var back := NonceInverse(c, b, r, a, s, h);
    CancelAdded(c.group, r, back, Mul(c.group, h, a), Mul(c.group, k, a));
    if h <= k {
      MulInjective(c.group, h, k, ORDER, a);
    } else {
      MulInjective(c.group, k, h, ORDER, a);
    }
  }

  /** `h A - s B` is the inverse of `R`. */
  lemma NonceInverse<G(!new)>(c: Curve<G>, b: G, r: G, a: G, s: nat, h: nat) returns (back: G)
    requires Abelian(c.group) && IsBase(c, b) && s < ORDER && SignatureEquation(c, b, r, a, s, h)
    ensures c.group.add(r, back) == c.group.zero
  {
    var ha, rest := Mul(c.group, h, a), Mul(c.group, ORDER - s, b);
    back := c.group.add(ha, rest);
    assert LawsAt(c.group, r, ha, rest);
    MulAdd(c.group, s, ORDER - s, b);
  }
}
