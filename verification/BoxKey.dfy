/** The box key two Ed25519 identities share. */
module BoxKey {
  import opened Clamping
  import opened Edwards
  import opened Field
  import opened Groups
  import opened Montgomery
  import opened Numbers
  import opened PointCodec
  import opened Signatures
  import opened Wire
  import opened Ladders

  /** `_ed25519_seed_to_curve25519` */
  function CurveSecret(sha: seq<Byte> -> Digest, seed: seq<Byte>): (k: seq<Byte>)
    ensures |k| == 32
  {
    ByteClamp(sha(seed)[..32])
  }

  /** `_ed25519_pk_to_curve25519`; `None` is the refusal of an invalid key. */
  function CurvePublic(key: seq<Byte>): Option<seq<Byte>> {
    match Decompress(key)
    case None => None
    case Some(p) => Some(ToLE(UOf(p.y), 32))
  }

  /** `derive_box_key`, for a key derivation `hsalsa` of the shared point and a zero input. */
  function DeriveBoxKey<K>(sha: seq<Byte> -> Digest, hsalsa: (seq<Byte>, seq<Byte>) -> K,
                           seed: seq<Byte>, key: seq<Byte>): Option<K>
  {
    match CurvePublic(key)
    case None => None
    case Some(point) => Some(hsalsa(X25519(CurveSecret(sha, seed), point), Repeated(16, 0)))
  }

  /** The 255-bit mask in `_x25519` leaves a converted key alone. */
  lemma ConvertedKeyUnmasked(u: nat)
    requires u < P
    ensures MaskedU(ToLE(u, 32)) == u
  {
    ThirtyTwoBytes(u);
    UnpackNumber(u, 0);
  }

  /** The shared secret with the holder of an element `g` is the u coordinate of the secret multiple of `g`. */
  lemma SharedPoint<G(!new)>(c: Curve<G>, sha: seq<Byte> -> Digest, seed: seq<Byte>, g: G)
    requires FieldFacts() && EdwardsGroup(c)
    ensures X25519(CurveSecret(sha, seed), ToLE(U(c, g), 32))
         == ToLE(U(c, Mul(c.group, SecretScalar(sha, seed), g)), 32)
  {
    ConvertedKeyUnmasked(U(c, g));
    MaskedIs(ToLE(U(c, g), 32));
    Small(U(c, g));
    OneClamp(sha(seed)[..32]);
    X25519Multiplies(c, CurveSecret(sha, seed), ToLE(U(c, g), 32), g);
  }

  /** A decodable key leads to the u coordinate of the element it encodes; any other is refused. */
  lemma CurvePublicExactly<G(!new)>(c: Curve<G>, key: seq<Byte>)
    requires FieldFacts() && EdwardsGroup(c)
    ensures CurvePublic(key) == match Decompress(key) case None => None case Some(p) => Some(ToLE(U(c, Decoded(c, p)), 32))
  {
    if Decompress(key).Some? {
      var p := Decompress(key).value;
      DecompressExactly(c, key);
      var y, sign := SplitBytes(key);
      RecoveredIsOnCurve(y, sign);
      OnCurveReduced(p.x, y);
      assert ReachedAt(c, Rem(p.x), y);
    }
  }

  /** The converted public key of a seed. */
  lemma OwnCurvePublic<G(!new)>(c: Curve<G>, b: G, sha: seq<Byte> -> Digest, seed: seq<Byte>)
    requires Ed25519(c, b)
    ensures RecoverX(BASE_Y, 0).Some?
    ensures CurvePublic(PublicKey(sha, seed)) == Some(ToLE(U(c, Mul(c.group, SecretScalar(sha, seed), b)), 32))
  {
    var a := SecretScalar(sha, seed);
    var g := Mul(c.group, a, b);
    BaseRepresents(c, b);
    ScalarMultMultiplies(c, Base(), a, b);
    CompressEncodes(c, ScalarMult(Base(), a), g);
    DecompressUndoes(c, g);
  }

  /** What is derived from the key of an element: the clamped first half of the hashed seed times that
      element, its u coordinate in 32 bytes, mixed with sixteen zero bytes. */
  lemma DerivedKeyIs<G(!new), K>(c: Curve<G>, sha: seq<Byte> -> Digest, hsalsa: (seq<Byte>, seq<Byte>) -> K,
                                 seed: seq<Byte>, key: seq<Byte>)
    requires FieldFacts() && EdwardsGroup(c)
    ensures DeriveBoxKey(sha, hsalsa, seed, key).Some? <==> Decompress(key).Some?
    ensures Decompress(key).Some? ==>
              var g := Decoded(c, Decompress(key).value);
              DeriveBoxKey(sha, hsalsa, seed, key) ==
                Some(hsalsa(ToLE(U(c, Mul(c.group, SigningClamp(FromLE(sha(seed)[..32])), g)), 32), seq(16, i => 0)))
  {
    CurvePublicExactly(c, key);
    if Decompress(key).Some? {
      SharedPoint(c, sha, seed, Decoded(c, Decompress(key).value));
      assert Repeated(16, 0) == seq(16, i => 0);
    }
  }

  /** Both ends derive the same key, from either seed and the other's public key. */
  lemma BothEndsAgree<G(!new), K>(c: Curve<G>, b: G, sha: seq<Byte> -> Digest,
                                  hsalsa: (seq<Byte>, seq<Byte>) -> K, mine: seq<Byte>, theirs: seq<Byte>)
    requires Ed25519(c, b)
    ensures RecoverX(BASE_Y, 0).Some?
    ensures DeriveBoxKey(sha, hsalsa, mine, PublicKey(sha, theirs)).Some?
    ensures DeriveBoxKey(sha, hsalsa, mine, PublicKey(sha, theirs))
         == DeriveBoxKey(sha, hsalsa, theirs, PublicKey(sha, mine))
  {
    var m, t := SecretScalar(sha, mine), SecretScalar(sha, theirs);
    OwnCurvePublic(c, b, sha, mine);
    OwnCurvePublic(c, b, sha, theirs);
    SharedPoint(c, sha, mine, Mul(c.group, t, b));
    SharedPoint(c, sha, theirs, Mul(c.group, m, b));
    MulCommutes(c.group, m, t, b);
  }
}
