/** Signed envelopes as the ledger sees them: a payload whose fields may be missing or of the wrong
    type, the key that claims to have signed it, and the signature. */
module Wire {

  datatype Option<+T> = None | Some(value: T)

  datatype NodeId = NodeId(hex: string)

  /** A number as it is written: `units` with the decimal point moved `places` to the left. */
  datatype Decimal = Decimal(units: int, places: nat)

  /** `None` stands for a field that is absent or does not have the type the ledger asks for. */
  datatype Payload = Payload(kind: string, sender: NodeId, powNonce: int, recipient: Option<NodeId>,
                             amount: Option<Decimal>, seqNo: Option<int>, ts: Option<Decimal>)

  datatype Envelope = Malformed | Signed(payload: Payload, pubkey: string, sig: string)

  /** The foreign primitives: signature check, node-id check and payload digest. Transaction ids are
      fixed-width lower-case hex strings, whose text order is the order of the numbers they spell. */
  datatype Rules = Rules(verify: (string, Payload, string) -> bool,
                         bound: (NodeId, string, int) -> bool,
                         digest: Payload -> nat)

  const MAX_CLOCK_SKEW: real := 300.0

  function PowerOfTen(n: nat): (p: nat)
    ensures p >= 1
  {
    if n == 0 then 1 else 10 * PowerOfTen(n - 1)
  }

  function Value(d: Decimal): real {
    d.units as real / PowerOfTen(d.places) as real
  }

  /** To the nearest integer, ties to even. */
  function Rounded(x: real): int
  {
    var low := x.Floor;
    var rest := x - low as real;
    if rest < 0.5 || (rest == 0.5 && low % 2 == 0) then low else low + 1
  }

  lemma RoundedIs(x: real)
    ensures -0.5 <= Rounded(x) as real - x <= 0.5
    ensures Rounded(x) as real - x == 0.5 || Rounded(x) as real - x == -0.5 ==> Rounded(x) % 2 == 0
  {
  }

  /** Six decimals, counted in millionths of a credit. */
  function Micro(credits: real): int {
    Rounded(credits * 1000000.0)
  }

  /** The amount and the time that `make_tx` writes: six decimals and three. */
  function AmountText(credits: real): Decimal {
    Decimal(Micro(credits), 6)
  }

  function TimeText(now: real): Decimal {
    Decimal(Rounded(now * 1000.0), 3)
  }

  lemma AmountTextValue(credits: real)
    ensures Value(AmountText(credits)) == Micro(credits) as real / 1000000.0
  {
    assert PowerOfTen(6) == 1000000;
  }

  lemma TimeTextValue(now: real)
    ensures -0.0005 <= Value(TimeText(now)) - now <= 0.0005
  {
    assert PowerOfTen(3) == 1000;
    RoundedIs(now * 1000.0);
  }

  lemma AmountTextClose(credits: real)
    ensures -0.0000005 <= Value(AmountText(credits)) - credits <= 0.0000005
  {
    AmountTextValue(credits);
    RoundedIs(credits * 1000000.0);
  }

  predicate Opens(r: Rules, e: Envelope)
  {
    e.Signed? && r.verify(e.pubkey, e.payload, e.sig)
  }

  /** Every shape check on a payload except the clock. */
  predicate Transfer(p: Payload)
  {
    && p.kind == "tx"
    && p.amount.Some? && Value(p.amount.value) > 0.0
    && p.seqNo.Some? && p.seqNo.value >= 1
    && p.recipient.Some? && |p.recipient.value.hex| == 64 && p.recipient.value != p.sender
    && p.ts.Some?
  }

  predicate Timely(p: Payload, now: real)
    requires p.ts.Some?
  {
    Value(p.ts.value) <= now + MAX_CLOCK_SKEW
  }

  /** The checks made before the watermark test. */
  predicate WellFormed(r: Rules, now: real, e: Envelope)
  {
    Opens(r, e) && Transfer(e.payload) && Timely(e.payload, now)
  }

  predicate Bound(r: Rules, e: Envelope)
    requires e.Signed?
  {
    r.bound(e.payload.sender, e.pubkey, e.payload.powNonce)
  }

  /** What every stored envelope satisfies for ever, whatever the clock says. */
  predicate Genuine(r: Rules, e: Envelope)
  {
    Opens(r, e) && Transfer(e.payload) && Bound(r, e)
  }

  predicate Valid(r: Rules, now: real, e: Envelope)
  {
    WellFormed(r, now, e) && Bound(r, e)
  }

  ghost predicate InjectiveDigest(r: Rules)
  {
    forall p, q :: r.digest(p) == r.digest(q) ==> p == q
  }
}
