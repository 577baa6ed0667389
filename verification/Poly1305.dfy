/** The Poly1305 authenticator: the accumulator loop and the polynomial of section 2.5 of RFC 8439. */
module Poly1305 {
  import opened Basics
  import opened Field
  import opened Numbers

  /** `_P1305`, by its little-endian bytes. */
  const P1305: Positive := FromLE([0xFB] + (Repeated(15, 0xFF) + [0x03]))

  const R_CLAMP: nat := 0x0FFF_FFFC_0FFF_FFFC_0FFF_FFFC_0FFF_FFFF

  type Key32 = k: seq<Byte> | |k| == 32 witness Repeated(32, 0)

  lemma P1305Is()
    ensures P1305 == Pow2(130) - 5
  {
    FirstByte(0xFB, Repeated(15, 0xFF) + [0x03]);
    OnesThen(15, 0x03);
    Pow2Byte(8 * 15 + 2);
    assert Pow2(8 * 15 + 2) == 2 * Pow2(8 * 15 + 1) == 4 * Pow2(8 * 15);
  }

  // ---------------------------------------------------------------- the polynomial

  function Power(r: nat, e: nat): nat {
    if e == 0 then 1 else Power(r, e - 1) * r
  }

  /** `c1 r^q + c2 r^(q-1) + ... + cq r` */
  function Polynomial(cs: seq<nat>, r: nat): nat {
    if cs == [] then 0 else cs[0] * Power(r, |cs|) + Polynomial(cs[1..], r)
  }

  /** `message[i:i + 16]` */
  function Block(message: seq<Byte>, i: nat): seq<Byte>
    requires i < |message|
  {
    message[i..if i + 16 < |message| then i + 16 else |message|]
  }

  /** Block `j`: up to sixteen octets, with one bit set beyond the last of them. */
  function Coefficient(message: seq<Byte>, j: nat): nat
    requires 16 * j < |message|
  {
    var block := Block(message, 16 * j);
    FromLE(block) + Pow2(8 * |block|)
  }

  function BlockCount(message: seq<Byte>): nat {
    (|message| + 15) / 16
  }

  function Coefficients(message: seq<Byte>): (cs: seq<nat>)
    ensures |cs| == BlockCount(message)
  {
    seq(BlockCount(message), j requires 0 <= j < BlockCount(message) => Coefficient(message, j))
  }

  /** The tag of section 2.5 of RFC 8439. */
  function Tag(message: seq<Byte>, key: Key32): (tag: seq<Byte>)
    ensures |tag| == 16
  {
    var r, s := And(FromLE(key[..16]), R_CLAMP), FromLE(key[16..]);
    ToLE((Polynomial(Coefficients(message), r) % P1305 + s) % Pow2(128), 16)
  }

  // ---------------------------------------------------------------- what the tag is

  /** `r` keeps the bits of section 2.5 of RFC 8439: the top four of bytes 3, 7, 11 and 15 are cleared, and
      the bottom two of bytes 4, 8 and 12. */
  lemma ClampIs()
    ensures R_CLAMP == FromLE([0xFF, 0xFF, 0xFF, 0x0F] + ([0xFC, 0xFF, 0xFF, 0x0F] + ([0xFC, 0xFF, 0xFF, 0x0F] + [0xFC, 0xFF, 0xFF, 0x0F])))
  {
    FourBytes(0xFF, 0xFF, 0xFF, 0x0F);
    FourBytes(0xFC, 0xFF, 0xFF, 0x0F);
    var four: seq<Byte> := [0xFC, 0xFF, 0xFF, 0x0F];
    FromLEConcat(four, four);
    FromLEConcat(four, four + four);
    FromLEConcat([0xFF, 0xFF, 0xFF, 0x0F], four + (four + four));
    Pow2Of32();
  }

  /** The tag as a number, from the two halves of the key. */
  lemma TagNumber(message: seq<Byte>, key: Key32)
    ensures FromLE(Tag(message, key))
         == (Polynomial(Coefficients(message), And(FromLE(key[0..16]), R_CLAMP)) % (Pow2(130) - 5) + FromLE(key[16..32])) % Pow2(128)
  {
    P1305Is();
    assert key[0..16] == key[..16] && key[16..32] == key[16..];
    var sum := Polynomial(Coefficients(message), And(FromLE(key[..16]), R_CLAMP)) % P1305 + FromLE(key[16..]);
    Remainder(sum, Pow2(128));
    ToLERoundTrip(sum % Pow2(128));
  }

  lemma Remainder(a: nat, m: nat)
    requires m > 0
    ensures a % m < m
  {
  }

  lemma ToLERoundTrip(n: nat)
    requires n < Pow2(128)
    ensures FromLE(ToLE(n, 16)) == n
  {
    LERoundTrip(n, 16);
  }

  lemma NothingToTag(r: nat)
    ensures Polynomial(Coefficients([]), r) == 0
  {
  }

  /** A further block of up to sixteen bytes is added with one bit set beyond its end, and the sum
      multiplied by `r`. */
  lemma OneMoreBlock(message: seq<Byte>, block: seq<Byte>, c: nat, r: nat)
    requires |message| % 16 == 0 && 0 < |block| <= 16 && c == FromLE(block) + Pow2(8 * |block|)
    ensures Polynomial(Coefficients(message + block), r) == (Polynomial(Coefficients(message), r) + c) * r
  {
    CoefficientsMore(message, block, |message| / 16, c);
    PolynomialSnoc(Coefficients(message), c, r);
  }

  lemma CoefficientsMore(message: seq<Byte>, block: seq<Byte>, n: nat, c: nat)
    requires |message| == 16 * n && 0 < |block| <= 16 && c == FromLE(block) + Pow2(8 * |block|)
    ensures Coefficients(message + block) == Coefficients(message) + [c]
  {
    CountBlocks(message, block, n);
    LastCoefficient(message, block, n);
    forall j | 0 <= j < n ensures Coefficients(message + block)[j] == Coefficients(message)[j] {
      SameCoefficient(message, block, n, j);
    }
    OneLonger(Coefficients(message), Coefficients(message + block), c);
  }

  lemma CountBlocks(message: seq<Byte>, block: seq<Byte>, n: nat)
    requires |message| == 16 * n && 0 < |block| <= 16
    ensures BlockCount(message) == n && BlockCount(message + block) == n + 1
  {
  }

  lemma LastCoefficient(message: seq<Byte>, block: seq<Byte>, n: nat)
    requires |message| == 16 * n && 0 < |block| <= 16 && BlockCount(message + block) == n + 1
    ensures Coefficients(message + block)[n] == FromLE(block) + Pow2(8 * |block|)
  {
    assert Block(message + block, 16 * n) == block;
  }

  lemma SameCoefficient(message: seq<Byte>, block: seq<Byte>, n: nat, j: nat)
    requires |message| == 16 * n && j < n && BlockCount(message) == n && BlockCount(message + block) == n + 1
    ensures Coefficients(message + block)[j] == Coefficients(message)[j]
  {
    SameBlock(message, block, 16 * j);
  }

  lemma OneLonger(cs: seq<nat>, more: seq<nat>, c: nat)
    requires |more| == |cs| + 1 && more[|cs|] == c && forall j :: 0 <= j < |cs| ==> more[j] == cs[j]
    ensures more == cs + [c]
  {
  }

  lemma SameBlock(message: seq<Byte>, block: seq<Byte>, i: nat)
    requires i + 16 <= |message|
    ensures Block(message + block, i) == Block(message, i)
  {
    assert (message + block)[i..i + 16] == message[i..i + 16];
  }

  // ---------------------------------------------------------------- the loop

  lemma {:induction false} PolynomialSnoc(cs: seq<nat>, c: nat, r: nat)
    ensures Polynomial(cs + [c], r) == (Polynomial(cs, r) + c) * r
  {
    var all := cs + [c];
    if cs == [] {
      assert all[1..] == [];
      assert Power(r, 1) == Power(r, 0) * r;
    } else {
      assert all[1..] == cs[1..] + [c];
      PolynomialSnoc(cs[1..], c, r);
      Horner(cs[0], Power(r, |cs|), Polynomial(cs[1..], r), c, r);
    }
  }

  lemma Horner(a: nat, p: nat, rest: nat, c: nat, r: nat)
    ensures a * (p * r) + (rest + c) * r == (a * p + rest + c) * r
  {
    Regroup(a, p, r);
    Distribute(a * p, rest + c, r);
  }

  lemma ModShift(x: int, k: int, m: Positive)
    ensures (x + k * m) % m == x % m
  {
    UniqueQuotient(m, (x + k * m) / m, (x + k * m) % m, x / m + k, x % m);
  }

  /** Reducing between steps changes nothing. */
  lemma ReduceEarly(x: int, c: int, r: int, m: Positive)
    ensures (x % m + c) * r % m == (x + c) * r % m
  {
    var k := x / m;
    Distribute(x % m + c, k * m, r);
    Rotate(k, m, r);
    ModShift((x % m + c) * r, k * r, m);
  }

  /** Appending the byte 1 sets the bit beyond the block. */
  lemma {:induction false} OneBitBeyond(block: seq<Byte>)
    ensures FromLE(block + [1]) == FromLE(block) + Pow2(8 * |block|)
  {
    if block == [] {
      assert ([] + [1])[1..] == [];
    } else {
      assert (block + [1])[1..] == block[1..] + [1];
      OneBitBeyond(block[1..]);
      Pow2Byte(8 * (|block| - 1));
    }
  }

  /** One pass of the loop body. */
  function Absorb(acc: nat, c: nat, r: nat): nat {
    (acc + c) * r % P1305
  }

  lemma AccumulatorStep(cs: seq<nat>, j: nat, r: nat)
    requires j < |cs|
    ensures Absorb(Polynomial(cs[..j], r) % P1305, cs[j], r) == Polynomial(cs[..j + 1], r) % P1305
  {
    assert cs[..j + 1] == cs[..j] + [cs[j]];
    PolynomialSnoc(cs[..j], cs[j], r);
    ReduceEarly(Polynomial(cs[..j], r), cs[j], r, P1305);
  }

  function Finish(acc: nat, s: nat): seq<Byte> {
    ToLE(And(acc + s, Pow2(128) - 1), 16)
  }

  lemma TagIs(message: seq<Byte>, key: Key32, acc: nat)
    requires acc == Polynomial(Coefficients(message), And(FromLE(key[..16]), R_CLAMP)) % P1305
    ensures Finish(acc, FromLE(key[16..])) == Tag(message, key)
  {
    MaskIsMod(acc + FromLE(key[16..]), 128);
  }

  lemma CoefficientAt(message: seq<Byte>, j: nat)
    requires 16 * j < |message|
    ensures j < BlockCount(message)
    ensures FromLE(Block(message, 16 * j) + [1]) == Coefficients(message)[j]
  {
    OneBitBeyond(Block(message, 16 * j));
  }

  lemma EmptyPolynomial(r: nat)
    ensures Polynomial([], r) % P1305 == 0
  {
    ZeroMod(P1305);
  }

  lemma ZeroMod(m: Positive)
    ensures 0 % m == 0
  {
  }

  /** The loop of `_poly1305`. */
  method Accumulate(message: seq<Byte>, r: nat) returns (acc: nat)
    ensures acc == Polynomial(Coefficients(message), r) % P1305
  {
    ghost var cs := Coefficients(message);
    acc := 0;
    EmptyPolynomial(r);
    assert cs[..0] == [];
    var i := 0;
    ghost var j := 0;
    while i < |message|
      invariant i == 16 * j && j <= |cs| && (i >= |message| ==> j == |cs|)
      invariant acc == Polynomial(cs[..j], r) % P1305
    {
      CoefficientAt(message, j);
      AccumulatorStep(cs, j, r);
      acc := Absorb(acc, FromLE(Block(message, i) + [1]), r);
      i := i + 16;
      j := j + 1;
    }
    assert cs[..j] == cs;
  }

  /** `_poly1305` computes the tag, for every message and key. */
  method Authenticate(message: seq<Byte>, key: Key32) returns (tag: seq<Byte>)
    ensures tag == Tag(message, key)
  {
    var acc := Accumulate(message, And(FromLE(key[..16]), R_CLAMP));
    TagIs(message, key, acc);
    tag := Finish(acc, FromLE(key[16..]));
  }
}
