/** The authenticated box: a key stream from numbered blocks, encryption by XOR, and a tag over the ciphertext. */
module SecretBox {
  import opened Numbers
  import opened Poly1305
  import opened Xor

  type Nonce = n: seq<Byte> | |n| == 24 witness Repeated(24, 0)

  type Block64 = b: seq<Byte> | |b| == 64 witness Repeated(64, 0)

  /** The Salsa20 core: `_hsalsa20` and `_salsa20_block`. */
  datatype Salsa = Salsa(hsalsa: (seq<Byte>, seq<Byte>) -> Key32, block: (Key32, seq<Byte>, nat) -> Block64)

  datatype Opened = Plain(text: seq<Byte>) | TooShort | NotAuthentic | BadNonce | Malformed

  /** What arrives in place of a sealed box; `Garbage` stands for missing fields or text that is not hexadecimal. */
  datatype Envelope = Sealed(nonce: seq<Byte>, box: seq<Byte>) | Garbage

  // ---------------------------------------------------------------- the key stream

  /** Byte `i` of the stream is byte `i % 64` of block `i / 64`. */
  function StreamByte(core: Salsa, key: Key32, nonce: Nonce, i: nat): Byte {
    core.block(core.hsalsa(key, nonce[..16]), nonce[16..], i / 64)[i % 64]
  }

  function Stream(core: Salsa, key: Key32, nonce: Nonce, length: nat): (s: seq<Byte>)
    ensures |s| == length
  {
    seq(length, i requires i >= 0 => StreamByte(core, key, nonce, i))
  }

  /** `_xsalsa20_stream` */
  method XSalsaStream(core: Salsa, key: Key32, nonce: Nonce, length: nat) returns (s: seq<Byte>)
    ensures s == Stream(core, key, nonce, length)
  {
    var subkey := core.hsalsa(key, nonce[..16]);
    var joined: seq<Byte> := [];
    var n := (length + 63) / 64;
    for counter := 0 to n
      invariant |joined| == 64 * counter
      invariant forall i: nat :: i < |joined| ==> joined[i] == StreamByte(core, key, nonce, i)
    {
      var next := core.block(subkey, nonce[16..], counter);
      forall i: nat | 64 * counter <= i < 64 * counter + 64
        ensures (joined + next)[i] == StreamByte(core, key, nonce, i)
      {
        Positions(counter, i);
      }
      joined := joined + next;
    }
    s := joined[..length];
  }

  lemma Positions(counter: nat, i: nat)
    requires 64 * counter <= i < 64 * counter + 64
    ensures i / 64 == counter && i % 64 == i - 64 * counter
  {
  }

  // ---------------------------------------------------------------- XOR

  lemma {:induction false} XorBelow(a: nat, b: nat, n: nat)
    requires a < Pow2(n) && b < Pow2(n)
    ensures Distance(a, b) < Pow2(n)
    decreases n
  {
    if n > 0 {
      XorBelow(a / 2, b / 2, n - 1);
    }
  }

  function XorByte(a: Byte, b: Byte): Byte {
    Pow2Of8();
    XorBelow(a, b, 8);
    Distance(a, b)
  }

  lemma {:induction false} XorTwice(a: nat, b: nat)
    ensures Distance(Distance(a, b), b) == a
    decreases a + b
  {
    if a != 0 || b != 0 {
      var d := Distance(a, b);
      XorHalf(a, b);
      XorHalf(d, b);
      XorTwice(a / 2, b / 2);
      BitTwice(a % 2, b % 2);
    }
  }

  lemma XorHalf(a: nat, b: nat)
    ensures Distance(a, b) / 2 == Distance(a / 2, b / 2) && Distance(a, b) % 2 == (a % 2 + b % 2) % 2
  {
  }

  lemma BitTwice(a: nat, b: nat)
    requires a < 2 && b < 2
    ensures ((a + b) % 2 + b) % 2 == a
  {
  }

  /** `bytes(p ^ k for p, k in zip(text, pad))` */
  function XorBytes(text: seq<Byte>, pad: seq<Byte>): (out: seq<Byte>)
    ensures |out| == if |text| < |pad| then |text| else |pad|
  {
    seq(if |text| < |pad| then |text| else |pad|, i requires 0 <= i < |text| && i < |pad| => XorByte(text[i], pad[i]))
  }

  lemma XorBytesTwice(text: seq<Byte>, pad: seq<Byte>)
    requires |text| == |pad|
    ensures XorBytes(XorBytes(text, pad), pad) == text
  {
    forall i | 0 <= i < |text| ensures XorBytes(XorBytes(text, pad), pad)[i] == text[i] {
      XorTwice(text[i], pad[i]);
    }
  }

  // ---------------------------------------------------------------- sealing and opening

  /** `_secretbox_seal` */
  function Seal(core: Salsa, key: Key32, nonce: Nonce, text: seq<Byte>): seq<Byte> {
    var stream := Stream(core, key, nonce, 32 + |text|);
    var ciphertext := XorBytes(text, stream[32..]);
    Tag(ciphertext, stream[..32]) + ciphertext
  }

  /** `_secretbox_open` */
  function Open(core: Salsa, key: Key32, nonce: Nonce, sealed: seq<Byte>): Opened {
    if |sealed| < 16 then TooShort
    else
      var tag, ciphertext := sealed[..16], sealed[16..];
      var stream := Stream(core, key, nonce, 32 + |ciphertext|);
      if tag != Tag(ciphertext, stream[..32]) then NotAuthentic
      else Plain(XorBytes(ciphertext, stream[32..]))
  }

  /** `open_sealed` */
  function OpenEnvelope(core: Salsa, key: Key32, e: Envelope): Opened {
    match e
    case Garbage => Malformed
    case Sealed(nonce, box) => if |nonce| != 24 then BadNonce else Open(core, key, nonce, box)
  }

  /** Opening a sealed box gives back the text, for every key, nonce and length. */
  lemma OpenSealed(core: Salsa, key: Key32, nonce: Nonce, text: seq<Byte>)
    ensures Open(core, key, nonce, Seal(core, key, nonce, text)) == Plain(text)
    ensures OpenEnvelope(core, key, Sealed(nonce, Seal(core, key, nonce, text))) == Plain(text)
  {
    var stream := Stream(core, key, nonce, 32 + |text|);
    var ciphertext := XorBytes(text, stream[32..]);
    var tag := Tag(ciphertext, stream[..32]);
    assert (tag + ciphertext)[..16] == tag && (tag + ciphertext)[16..] == ciphertext;
    XorBytesTwice(text, stream[32..]);
  }

  /** A box opens to a text exactly when it is the sealing of that text: nothing else is accepted. */
  lemma OpensExactlySealed(core: Salsa, key: Key32, nonce: Nonce, sealed: seq<Byte>, text: seq<Byte>)
    ensures Open(core, key, nonce, sealed) == Plain(text) <==> sealed == Seal(core, key, nonce, text)
  {
    OpenSealed(core, key, nonce, text);
    if Open(core, key, nonce, sealed) == Plain(text) {
      var ciphertext := sealed[16..];
      XorBytesTwice(ciphertext, Stream(core, key, nonce, 32 + |ciphertext|)[32..]);
      assert sealed == sealed[..16] + ciphertext;
    }
  }

  /** Byte `k` of the key stream: a subkey from the first 16 bytes of the nonce, and under it blocks of 64
      bytes numbered from 0, each with the last 8 bytes of the nonce. */
  function KeyByte(core: Salsa, key: Key32, nonce: Nonce, k: nat): Byte {
    core.block(core.hsalsa(key, nonce[0..16]), nonce[16..24], k / 64)[k % 64]
  }

  /** What a sealed box is: the tag over the rest under the first 32 bytes of the key stream, and the text
      combined bit by bit with the stream from byte 32 on. */
  lemma SealedIs(core: Salsa, key: Key32, nonce: Nonce, text: seq<Byte>)
    ensures var sealed, first := Seal(core, key, nonce, text), seq(32, k requires k >= 0 => KeyByte(core, key, nonce, k));
            && |sealed| == 16 + |text| && sealed[..16] == Tag(sealed[16..], first)
            && forall i, b: nat :: 0 <= i < |text| ==>
                 (Bit(sealed[16 + i], b) <==> Bit(text[i], b) != Bit(KeyByte(core, key, nonce, 32 + i), b))
  {
    var stream, sealed := Stream(core, key, nonce, 32 + |text|), Seal(core, key, nonce, text);
    assert nonce[0..16] == nonce[..16] && nonce[16..24] == nonce[16..];
    assert stream[..32] == seq(32, k requires k >= 0 => KeyByte(core, key, nonce, k));
    assert sealed[16..] == XorBytes(text, stream[32..]);
    forall i, b: nat | 0 <= i < |text|
      ensures Bit(sealed[16 + i], b) <==> Bit(text[i], b) != Bit(KeyByte(core, key, nonce, 32 + i), b)
    {
      assert stream[32..][i] == KeyByte(core, key, nonce, 32 + i);
      assert sealed[16 + i] == sealed[16..][i] == XorByte(text[i], stream[32..][i]);
      XorBits(text[i], stream[32..][i], b);
    }
  }

  lemma {:induction false} XorBits(a: nat, b: nat, i: nat)
    ensures Bit(Distance(a, b), i) <==> Bit(a, i) != Bit(b, i)
    decreases i
  {
    XorHalf(a, b);
    if i > 0 {
      XorBits(a / 2, b / 2, i - 1);
    }
  }

  /** The sealing step as the code runs it, over the generated stream. */
  method SealBox(core: Salsa, key: Key32, nonce: Nonce, text: seq<Byte>) returns (sealed: seq<Byte>)
    ensures sealed == Seal(core, key, nonce, text)
  {
    var stream := XSalsaStream(core, key, nonce, 32 + |text|);
    var ciphertext := XorBytes(text, stream[32..]);
    var tag := Authenticate(ciphertext, stream[..32]);
    sealed := tag + ciphertext;
  }

  method OpenBox(core: Salsa, key: Key32, nonce: Nonce, sealed: seq<Byte>) returns (r: Opened)
    ensures r == Open(core, key, nonce, sealed)
  {
    if |sealed| < 16 {
      return TooShort;
    }
    var tag, ciphertext := sealed[..16], sealed[16..];
    var stream := XSalsaStream(core, key, nonce, 32 + |ciphertext|);
    var expected := Authenticate(ciphertext, stream[..32]);
    if tag != expected {
      return NotAuthentic;
    }
    r := Plain(XorBytes(ciphertext, stream[32..]));
  }
}
