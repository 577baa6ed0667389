/** The hypotheses can be met: payloads and results can be numbered without collisions, and there are
    keys, rivals and jobs as the theorems ask for. */
module Feasible {
  import opened Wire
  import opened LedgerSpec
  import opened GossipLedgerClass
  import opened Witness
  import opened Scheduling
  import opened JobRun
  import opened JobResults
  import Network

  // ---------------------------------------------------------------- numbering

  /** Pairs of natural numbers, each as one positive number: `2^a * (2 * n + 1)`. */
  function Pair(a: nat, n: nat): (out: nat)
    ensures out > 0
  {
    if a == 0 then 2 * n + 1 else 2 * Pair(a - 1, n)
  }

  lemma {:induction false} PairInjective(a: nat, n: nat, b: nat, m: nat)
    requires Pair(a, n) == Pair(b, m)
    ensures a == b && n == m
  {
    if a > 0 && b > 0 {
      PairInjective(a - 1, n, b - 1, m);
    }
  }

  function ListCode<T>(code: T -> nat, s: seq<T>): nat {
    if s == [] then 0 else Pair(code(s[0]), ListCode(code, s[1..]))
  }

  ghost predicate Injective<T(!new)>(code: T -> nat) {
    forall x, y :: code(x) == code(y) ==> x == y
  }

  lemma {:induction false} ListCodeInjective<T(!new)>(code: T -> nat, s: seq<T>, t: seq<T>)
    requires Injective(code) && ListCode(code, s) == ListCode(code, t)
    ensures s == t
  {
    if s != [] && t != [] {
      PairInjective(code(s[0]), ListCode(code, s[1..]), code(t[0]), ListCode(code, t[1..]));
      ListCodeInjective(code, s[1..], t[1..]);
      assert s == [s[0]] + s[1..] && t == [t[0]] + t[1..];
    }
  }

  function TextCode(s: string): nat {
    ListCode((c: char) => c as nat, s)
  }

  function IntCode(i: int): nat {
    if i >= 0 then 2 * i else -2 * i - 1
  }

  function OptionCode<T>(code: T -> nat, o: Option<T>): nat {
    if o.Some? then 1 + code(o.value) else 0
  }

  function NodeCode(n: NodeId): nat {
    TextCode(n.hex)
  }

  function DecimalCode(d: Decimal): nat {
    Pair(IntCode(d.units), d.places)
  }

  function PayloadCode(p: Payload): nat {
    Pair(TextCode(p.kind), Pair(NodeCode(p.sender), Pair(IntCode(p.powNonce), Pair(OptionCode(NodeCode, p.recipient),
      Pair(OptionCode(DecimalCode, p.amount), Pair(OptionCode(IntCode, p.seqNo), OptionCode(DecimalCode, p.ts)))))))
  }

  lemma PartsInjective()
    ensures Injective(TextCode) && Injective(NodeCode) && Injective(IntCode) && Injective(DecimalCode)
  {
    forall s, t | TextCode(s) == TextCode(t) ensures s == t {
      ListCodeInjective((c: char) => c as nat, s, t);
    }
    forall d: Decimal, e: Decimal | DecimalCode(d) == DecimalCode(e) ensures d == e {
      PairInjective(IntCode(d.units), d.places, IntCode(e.units), e.places);
    }
  }

  lemma PayloadCodeInjective(p: Payload, q: Payload)
    requires PayloadCode(p) == PayloadCode(q)
    ensures p == q
  {
    PartsInjective();
    var p6, q6 := Pair(OptionCode(IntCode, p.seqNo), OptionCode(DecimalCode, p.ts)),
                  Pair(OptionCode(IntCode, q.seqNo), OptionCode(DecimalCode, q.ts));
    var p5, q5 := Pair(OptionCode(DecimalCode, p.amount), p6), Pair(OptionCode(DecimalCode, q.amount), q6);
    var p4, q4 := Pair(OptionCode(NodeCode, p.recipient), p5), Pair(OptionCode(NodeCode, q.recipient), q5);
    var p3, q3 := Pair(IntCode(p.powNonce), p4), Pair(IntCode(q.powNonce), q4);
    var p2, q2 := Pair(NodeCode(p.sender), p3), Pair(NodeCode(q.sender), q3);
    PairInjective(TextCode(p.kind), p2, TextCode(q.kind), q2);
    PairInjective(NodeCode(p.sender), p3, NodeCode(q.sender), q3);
    PairInjective(IntCode(p.powNonce), p4, IntCode(q.powNonce), q4);
    PairInjective(OptionCode(NodeCode, p.recipient), p5, OptionCode(NodeCode, q.recipient), q5);
    PairInjective(OptionCode(DecimalCode, p.amount), p6, OptionCode(DecimalCode, q.amount), q6);
    PairInjective(OptionCode(IntCode, p.seqNo), OptionCode(DecimalCode, p.ts), OptionCode(IntCode, q.seqNo), OptionCode(DecimalCode, q.ts));
  }

  // ---------------------------------------------------------------- digests and fingerprints

  /** Keys that every signature fits, and a digest that never collides. */
  function OpenRules(): Rules {
    Rules((key, p, sig) => true, (n, key, nonce) => true, PayloadCode)
  }

  lemma DigestsExist()
    ensures InjectiveDigest(OpenRules())
  {
    forall p, q | OpenRules().digest(p) == OpenRules().digest(q) ensures p == q {
      PayloadCodeInjective(p, q);
    }
  }

  function JsonCode(x: Json): nat {
    TextCode(x.text)
  }

  lemma PrintsExist() returns (fp: Fingerprint)
    ensures InjectivePrint(fp)
  {
    fp := (xs: seq<Json>) => ListCode(JsonCode, xs);
    PartsInjective();
    forall x: Json, y: Json | JsonCode(x) == JsonCode(y) ensures x == y {
      assert x.text == y.text;
    }
    forall xs, ys | fp(xs) == fp(ys) ensures xs == ys {
      ListCodeInjective(JsonCode, xs, ys);
    }
  }

  // ---------------------------------------------------------------- transfers, networks, jobs

  function Far(): NodeId {
    NodeId(seq(64, i => 'f'))
  }

  /** A transfer of `units` whole credits, written at the last full second. */
  function Sample(units: int, seqNo: int, now: real): Envelope {
    Signed(Payload("tx", NodeId("a"), 0, Some(Far()), Some(Decimal(units, 0)), Some(seqNo), Some(Decimal(now.Floor, 0))), "key", "sig")
  }

  lemma SampleValid(units: int, seqNo: int, now: real)
    requires units >= 1 && seqNo >= 1
    ensures Valid(OpenRules(), now, Sample(units, seqNo, now))
    ensures Value(Sample(units, seqNo, now).payload.amount.value) == units as real
  {
    assert PowerOfTen(0) == 1;
  }

  /** Rival transfers that a ledger without history accepts. */
  lemma RivalsExist(now: real) returns (r: Rules, e: Envelope, f: Envelope)
    ensures InjectiveDigest(r) && Valid(r, now, e) && Valid(r, now, f) && Rivals(r, EMPTY, e, f)
  {
    DigestsExist();
    r, e, f := OpenRules(), Sample(1, 1, now), Sample(2, 1, now);
    SampleValid(1, 1, now);
    SampleValid(2, 1, now);
  }

  /** And transfers of one sender with the seqs 1 and 2, the first of one credit. */
  lemma SuccessorsExist() returns (r: Rules, bob: NodeId, first: Envelope, second: Envelope)
    ensures InjectiveDigest(r) && Valid(r, 0.0, first) && Valid(r, 0.0, second)
    ensures first.payload.sender == second.payload.sender && first.payload.recipient == Some(bob)
    ensures first.payload.seqNo == Some(1) && second.payload.seqNo == Some(2)
    ensures first.payload.amount.Some? && Value(first.payload.amount.value) == 1.0
  {
    DigestsExist();
    r, bob, first, second := OpenRules(), Far(), Sample(1, 1, 0.0), Sample(1, 2, 0.0);
    SampleValid(1, 1, 0.0);
    SampleValid(1, 2, 0.0);
  }

  function Me(): Identity {
    Identity(NodeId("a"), "key", 0, (p: Payload) => "sig")
  }

  lemma NetworksExist() returns (s: Network.Setup)
    ensures Network.Sound(s) && InjectiveDigest(s.rules)
  {
    s := Network.Setup(OpenRules().(bound := (n, key, nonce) => key == "key"), Me(), 0);
    DigestsExist();
    assert s.rules.digest == OpenRules().digest;
  }

  /** A caller with one provider at any price, and fingerprints that never collide. */
  lemma JobsExist(price: int) returns (g: Config)
    ensures Usable(g) && InjectivePrint(g.fp) && g.prices == map[Far() := price] && g.maxPrice == price
    ensures g.chunkSize == 1 && g.redundancy == 1 && (price >= 0 ==> FairPrices(g))
  {
    DigestsExist();
    var fp := PrintsExist();
    g := Config(OpenRules(), Me(), map[Far() := price], price, 1, 1, fp);
    assert |Far().hex| == 64 && |Me().nodeId.hex| == 1;
  }
}
