/** Witnessing: the first transfer heard in a slot gets a receipt, a different one gets the evidence
    back, and a provider that receives such evidence refuses the payment. */
module Witness {
  import opened Basics
  import opened Wire
  import opened LedgerSpec
  import opened LedgerSteps
  import opened Convergence
  import opened GossipLedgerClass

  const WITNESS_QUORUM: nat := 2
  const MAX_PUSH: nat := 500

  /** A receipt as the provider reads it: whether its envelope opens, whether its key is bound to the
      witness that was asked, and what it says. */
  datatype Receipt = Receipt(opens: bool, kind: string, txId: nat, signer: NodeId, bound: bool)

  datatype Reply = Granted(receipt: Receipt) | Vetoed(evidence: seq<Envelope>) | Refused

  /** The stored envelopes of one slot whose transfer is not `id`, in table order. */
  function Others(rows: seq<Row>, t: Tx): (out: seq<Envelope>)
    ensures forall e :: e in out ==> exists row :: row in rows && SameSlot(row.tx, t) && row.tx.id != t.id && row.envelope == e
    ensures out == [] ==> forall row :: row in rows && SameSlot(row.tx, t) ==> row.tx.id == t.id
  {
    if rows == [] then []
    else
      var rest := Others(rows[1..], t);
      assert forall row :: row in rows <==> row == rows[0] || row in rows[1..];
      if SameSlot(rows[0].tx, t) && rows[0].tx.id != t.id then [rows[0].envelope] + rest else rest
  }

  /** What a witness named `me` answers from ledger `l`. */
  function Answer(r: Rules, me: NodeId, now: real, l: Ledger, e: Envelope): Reply
  {
    match StatusOf(r, now, l, e)
    case Invalid => Refused
    case Conflict =>
      var others := Others(AddTx(r, now, l, e).rows, TxOf(r, e.payload));
      Vetoed(if others == [] then [] else [others[0]])
    case _ => Granted(Receipt(true, "receipt", r.digest(e.payload), me, true))
  }

  /** A witness refuses exactly what its ledger calls invalid, and otherwise gives a receipt or a veto. */
  lemma RefusedExactly(r: Rules, me: NodeId, now: real, l: Ledger, e: Envelope)
    ensures Answer(r, me, now, l, e).Refused? <==> StatusOf(r, now, l, e) == Invalid
    ensures Answer(r, me, now, l, e).Vetoed? <==> StatusOf(r, now, l, e) == Conflict
    ensures Answer(r, me, now, l, e).Granted? ==>
              Answer(r, me, now, l, e).receipt == Receipt(true, "receipt", r.digest(e.payload), me, true)
  {
  }

  // ---------------------------------------------------------------- one witness, no prune

  datatype Heard = Gossip(now: real, envelope: Envelope) | Ask(now: real, envelope: Envelope)

  function After(r: Rules, l: Ledger, hs: seq<Heard>): Ledger
    decreases |hs|
  {
    if hs == [] then l
    else AddTx(r, hs[|hs| - 1].now, After(r, l, hs[..|hs| - 1]), hs[|hs| - 1].envelope)
  }

  /** The witness's answer to the k-th message it hears, if that message asks for one. */
  function AnswerAt(r: Rules, me: NodeId, l: Ledger, hs: seq<Heard>, k: nat): Reply
    requires k < |hs|
  {
    Answer(r, me, hs[k].now, After(r, l, hs[..k]), hs[k].envelope)
  }

  function Slotted(r: Rules, e: Envelope): bool {
    e.Signed? && Transfer(e.payload)
  }

  lemma {:induction false} AfterGrows(r: Rules, l: Ledger, hs: seq<Heard>, j: nat, k: nat)
    requires InjectiveDigest(r) && Consistent(r, l) && j <= k <= |hs|
    ensures Consistent(r, After(r, l, hs[..j])) && Consistent(r, After(r, l, hs[..k]))
    ensures After(r, l, hs[..k]).base == l.base
    ensures Txs(After(r, l, hs[..j])) <= Txs(After(r, l, hs[..k]))
    decreases k
  {
    if k > 0 {
      assert hs[..k][..k - 1] == hs[..k - 1];
      AfterGrows(r, l, hs, if j == k then k - 1 else j, k - 1);
      var before := After(r, l, hs[..k - 1]);
      AddTxConsistent(r, hs[k - 1].now, before, hs[k - 1].envelope);
      AddTxEffect(r, hs[k - 1].now, before, hs[k - 1].envelope);
    }
  }

  /** A receipt for a transfer above the watermark means the transfer is stored from then on. */
  lemma ReceiptLocks(r: Rules, me: NodeId, l: Ledger, hs: seq<Heard>, i: nat, k: nat)
    requires InjectiveDigest(r) && Consistent(r, l) && i < k <= |hs| && Slotted(r, hs[i].envelope)
    requires AnswerAt(r, me, l, hs, i).Granted?
    requires hs[i].envelope.payload.seqNo.value > BaseRow(l.base, hs[i].envelope.payload.sender).seqNo
    ensures TxOf(r, hs[i].envelope.payload) in Txs(After(r, l, hs[..k]))
  {
    AfterGrows(r, l, hs, i, i + 1);
    assert hs[..i + 1][..i] == hs[..i];
    AddTxEffect(r, hs[i].now, After(r, l, hs[..i]), hs[i].envelope);
    AfterGrows(r, l, hs, i + 1, k);
  }

  /** Two different transfers of one sender and seq, above the baseline of the witness. */
  ghost predicate Rivals(r: Rules, l: Ledger, e: Envelope, f: Envelope)
  {
    && Slotted(r, e) && Slotted(r, f)
    && e.payload != f.payload && e.payload.sender == f.payload.sender && e.payload.seqNo == f.payload.seqNo
    && e.payload.seqNo.value > BaseRow(l.base, e.payload.sender).seqNo
  }

  /** Signing both of two rival transfers, in any history of gossip and requests without a prune,
      implies that the witness's own ledger already proves the double spend. */
  lemma BothReceiptsProveDoubleSpend(r: Rules, me: NodeId, l: Ledger, hs: seq<Heard>, i: nat, j: nat)
    requires InjectiveDigest(r) && Consistent(r, l) && i < |hs| && j < |hs|
    requires Rivals(r, l, hs[i].envelope, hs[j].envelope)
    requires AnswerAt(r, me, l, hs, i).Granted? && AnswerAt(r, me, l, hs, j).Granted?
    ensures DoubleSpent(Txs(After(r, l, hs)), hs[i].envelope.payload.sender)
    ensures FlaggedIn(After(r, l, hs), hs[i].envelope.payload.sender)
  {
    ReceiptLocks(r, me, l, hs, i, |hs|);
    ReceiptLocks(r, me, l, hs, j, |hs|);
    assert hs[..|hs|] == hs;
    var t, u := TxOf(r, hs[i].envelope.payload), TxOf(r, hs[j].envelope.payload);
    assert t.id != u.id && SameSlot(t, u);
  }

  /** After a receipt for one transfer, a rival that is asked for later is vetoed exactly when the
      request is the witness's first contact with it; otherwise it is waved through as known. */
  lemma RivalVetoedExactlyOnFirstContact(r: Rules, me: NodeId, l: Ledger, hs: seq<Heard>, i: nat, j: nat)
    requires InjectiveDigest(r) && Consistent(r, l) && i < j < |hs|
    requires Rivals(r, l, hs[i].envelope, hs[j].envelope)
    requires AnswerAt(r, me, l, hs, i).Granted? && Valid(r, hs[j].now, hs[j].envelope)
    ensures AnswerAt(r, me, l, hs, j).Vetoed? <==>
              TxOf(r, hs[j].envelope.payload) !in Txs(After(r, l, hs[..j]))
    ensures AnswerAt(r, me, l, hs, j).Granted? <==>
              TxOf(r, hs[j].envelope.payload) in Txs(After(r, l, hs[..j]))
  {
    ReceiptLocks(r, me, l, hs, i, j);
    AfterGrows(r, l, hs, j, j);
    var mid := After(r, l, hs[..j]);
    StatusMeaning(r, hs[j].now, mid, hs[j].envelope);
    assert SameSlot(TxOf(r, hs[i].envelope.payload), TxOf(r, hs[j].envelope.payload));
  }

  /** The transfer of message `k` is unknown to the witness until then. */
  ghost predicate FirstContact(r: Rules, l: Ledger, hs: seq<Heard>, k: nat)
    requires k < |hs|
  {
    Slotted(r, hs[k].envelope) ==> TxOf(r, hs[k].envelope.payload) !in Txs(After(r, l, hs[..k]))
  }

  /** Of two rival transfers, if each request is the witness's first contact with its transfer, one is
      not granted. */
  lemma OneReceiptPerSlot(r: Rules, me: NodeId, l: Ledger, hs: seq<Heard>, i: nat, j: nat)
    requires InjectiveDigest(r) && Consistent(r, l) && i < |hs| && j < |hs| && i != j
    requires Rivals(r, l, hs[i].envelope, hs[j].envelope)
    requires FirstContact(r, l, hs, i) && FirstContact(r, l, hs, j)
    requires AnswerAt(r, me, l, hs, i).Granted?
    requires Valid(r, hs[i].now, hs[i].envelope) && Valid(r, hs[j].now, hs[j].envelope)
    ensures AnswerAt(r, me, l, hs, j).Vetoed?
  {
    if i < j {
      RivalVetoedExactlyOnFirstContact(r, me, l, hs, i, j);
    } else if !AnswerAt(r, me, l, hs, j).Vetoed? {
      AfterGrows(r, l, hs, j, j);
      StatusMeaning(r, hs[j].now, After(r, l, hs[..j]), hs[j].envelope);
      RivalVetoedExactlyOnFirstContact(r, me, l, hs, j, i);
    }
  }

  /** A veto does not last: it stores the rival, so the same rival asked for once more is signed. */
  lemma VetoedThenSigned(r: Rules, me: NodeId, l: Ledger, now: real, e: Envelope, f: Envelope)
    requires InjectiveDigest(r) && Consistent(r, l) && Valid(r, now, e) && Valid(r, now, f) && Rivals(r, l, e, f)
    requires forall u :: u in Txs(l) ==> !SameSlot(u, TxOf(r, e.payload))
    ensures var hs := [Ask(now, e), Ask(now, f), Ask(now, f)];
            && AnswerAt(r, me, l, hs, 0).Granted? && AnswerAt(r, me, l, hs, 1).Vetoed? && AnswerAt(r, me, l, hs, 2).Granted?
  {
    AskedThreeTimes(r, now, l, e, f);
    AfterAsking(r, l, Ask(now, e), Ask(now, f), Ask(now, f));
  }

  lemma AfterAsking(r: Rules, l: Ledger, a: Heard, b: Heard, c: Heard)
    ensures After(r, l, [a, b, c][..0]) == l
    ensures After(r, l, [a, b, c][..1]) == AddTx(r, a.now, l, a.envelope)
    ensures After(r, l, [a, b, c][..2]) == AddTx(r, b.now, AddTx(r, a.now, l, a.envelope), b.envelope)
  {
    var hs := [a, b, c];
    assert hs[..0] == [] && hs[..1][..0] == [] && hs[..2][..1] == hs[..1];
  }

  lemma AskedThreeTimes(r: Rules, now: real, l: Ledger, e: Envelope, f: Envelope)
    requires InjectiveDigest(r) && Consistent(r, l) && Valid(r, now, e) && Valid(r, now, f) && Rivals(r, l, e, f)
    requires forall u :: u in Txs(l) ==> !SameSlot(u, TxOf(r, e.payload))
    ensures var first := AddTx(r, now, l, e);
            && StatusOf(r, now, l, e) == New && StatusOf(r, now, first, f) == Conflict
            && StatusOf(r, now, AddTx(r, now, first, f), f) == Known
  {
    var first, t, u := AddTx(r, now, l, e), TxOf(r, e.payload), TxOf(r, f.payload);
    AddTxConsistent(r, now, l, e);
    AddTxEffect(r, now, l, e);
    AddTxConsistent(r, now, first, f);
    AddTxEffect(r, now, first, f);
    StatusMeaning(r, now, l, e);
    StatusMeaning(r, now, first, f);
    StatusMeaning(r, now, AddTx(r, now, first, f), f);
    assert t in Txs(first) && SameSlot(t, u) && t != u;
  }

  /** At or below its watermark a witness no longer knows what was spent: it signs whatever is
      well formed. This is why the results above ask for a seq above the baseline and no prune. */
  lemma BelowWatermarkSignsAnything(r: Rules, me: NodeId, now: real, l: Ledger, e: Envelope)
    requires WellFormed(r, now, e)
    requires e.payload.seqNo.value <= BaseRow(l.base, e.payload.sender).seqNo
    ensures Answer(r, me, now, l, e).Granted? && AddTx(r, now, l, e) == l
  {
  }

  /** A veto carries proof: the one envelope it returns is genuine, differs from the vetoed transfer,
      and claims the same slot. */
  lemma VetoCarriesProof(r: Rules, me: NodeId, now: real, l: Ledger, e: Envelope)
    requires InjectiveDigest(r) && Consistent(r, l) && Answer(r, me, now, l, e).Vetoed?
    ensures var evidence := Answer(r, me, now, l, e).evidence;
            && |evidence| == 1 && Genuine(r, evidence[0]) && Genuine(r, e)
            && evidence[0].payload != e.payload
            && SameSlot(TxOf(r, evidence[0].payload), TxOf(r, e.payload))
  {
    var t := TxOf(r, e.payload);
    var l' := AddTx(r, now, l, e);
    AddTxConsistent(r, now, l, e);
    StatusMeaning(r, now, l, e);
    var u :| u in Txs(l) && SameSlot(u, t);
    var row :| row in l.rows && row.tx == u;
    assert row in l'.rows && row.tx.id != t.id;
    var others := Others(l'.rows, t);
    assert others[0] in others;
  }

  // ---------------------------------------------------------------- the provider's decision

  predicate Counted(r: Receipt, txId: nat, signer: NodeId)
  {
    r.opens && r.kind == "receipt" && r.txId == txId && r.signer == signer && r.bound
  }

  function Reached(replies: seq<Option<Reply>>): set<nat> {
    set i: nat | i < |replies| && replies[i].Some?
  }

  function Receipts(committee: seq<NodeId>, replies: seq<Option<Reply>>, txId: nat): set<nat>
    requires |committee| == |replies|
  {
    set i: nat | i < |replies| && replies[i].Some? && replies[i].value.Granted?
                 && Counted(replies[i].value.receipt, txId, committee[i])
  }

  predicate SomeoneVetoes(replies: seq<Option<Reply>>) {
    exists i :: 0 <= i < |replies| && replies[i].Some? && replies[i].value.Vetoed?
  }

  /** When a provider takes the payment: nobody it reached objects, and it holds receipts from two
      witnesses, or from all it could reach if they are fewer. */
  ghost predicate Passes(committee: seq<NodeId>, replies: seq<Option<Reply>>, txId: nat)
    requires |committee| == |replies|
  {
    !SomeoneVetoes(replies) &&
    (|Receipts(committee, replies, txId)| >= WITNESS_QUORUM ||
     |Receipts(committee, replies, txId)| >= |Reached(replies)|)
  }

  /** Two rival payments checked by two providers: a witness on both committees that answers both, each
      as its first contact with the transfer, lets at most one check pass. */
  lemma AtMostOneFunded(r: Rules, w: NodeId, l: Ledger, hs: seq<Heard>, i: nat, j: nat,
                        c1: seq<NodeId>, r1: seq<Option<Reply>>, a: nat, c2: seq<NodeId>, r2: seq<Option<Reply>>, b: nat)
    requires InjectiveDigest(r) && Consistent(r, l) && i < |hs| && j < |hs| && i != j
    requires Rivals(r, l, hs[i].envelope, hs[j].envelope)
    requires FirstContact(r, l, hs, i) && FirstContact(r, l, hs, j)
    requires Valid(r, hs[i].now, hs[i].envelope) && Valid(r, hs[j].now, hs[j].envelope)
    requires |c1| == |r1| && a < |c1| && c1[a] == w && r1[a] == Some(AnswerAt(r, w, l, hs, i))
    requires |c2| == |r2| && b < |c2| && c2[b] == w && r2[b] == Some(AnswerAt(r, w, l, hs, j))
    ensures !(Passes(c1, r1, r.digest(hs[i].envelope.payload)) && Passes(c2, r2, r.digest(hs[j].envelope.payload)))
  {
    AfterGrows(r, l, hs, i, i);
    StatusMeaning(r, hs[i].now, After(r, l, hs[..i]), hs[i].envelope);
    if AnswerAt(r, w, l, hs, i).Granted? {
      OneReceiptPerSlot(r, w, l, hs, i, j);
    }
  }

  /** With two or more witnesses reached, a check passes exactly if nobody objects and two of them have
      signed a receipt for this very transfer; with one, exactly if that one has; with none it passes. */
  lemma PassesExactly(committee: seq<NodeId>, replies: seq<Option<Reply>>, txId: nat)
    requires |committee| == |replies|
    ensures |Reached(replies)| >= 2 ==>
              (Passes(committee, replies, txId) <==>
                (forall i :: 0 <= i < |replies| && replies[i].Some? ==> !replies[i].value.Vetoed?)
                && exists i, j :: 0 <= i < j < |replies| && Signs(committee[i], replies[i], txId) && Signs(committee[j], replies[j], txId))
    ensures |Reached(replies)| == 1 ==>
              (Passes(committee, replies, txId) <==> exists i :: 0 <= i < |replies| && Signs(committee[i], replies[i], txId))
    ensures |Reached(replies)| == 0 ==> Passes(committee, replies, txId)
  {
    var signed := Receipts(committee, replies, txId);
    forall i: nat | i < |replies| ensures i in signed <==> Signs(committee[i], replies[i], txId) {
    }
    if |signed| >= 2 {
      var i, j := TwoMembers(signed);
      assert Signs(committee[i], replies[i], txId) && Signs(committee[j], replies[j], txId);
    }
    forall i: nat, j: nat | i < j < |replies| && Signs(committee[i], replies[i], txId) && Signs(committee[j], replies[j], txId)
      ensures |signed| >= 2
    {
      SubsetSize({i, j}, signed);
    }
    if |Reached(replies)| <= 1 {
      OneReached(committee, replies, txId);
    }
  }

  /** The reply is a receipt for the transfer, signed by the witness that was asked. */
  predicate Signs(asked: NodeId, reply: Option<Reply>, txId: nat)
  {
    && reply.Some? && reply.value.Granted?
    && reply.value.receipt == Receipt(true, "receipt", txId, asked, true)
  }

  lemma TwoMembers(s: set<nat>) returns (i: nat, j: nat)
    requires |s| >= 2
    ensures i < j && i in s && j in s
  {
    var a :| a in s;
    assert |s - {a}| == |s| - 1;
    var b :| b in s - {a};
    i, j := if a < b then a else b, if a < b then b else a;
  }

  lemma OneReached(committee: seq<NodeId>, replies: seq<Option<Reply>>, txId: nat)
    requires |committee| == |replies| && |Reached(replies)| <= 1
    ensures |Reached(replies)| == 1 ==>
              (Passes(committee, replies, txId) <==> exists i :: 0 <= i < |replies| && Signs(committee[i], replies[i], txId))
    ensures |Reached(replies)| == 0 ==> Passes(committee, replies, txId)
  {
    var reached, signed := Reached(replies), Receipts(committee, replies, txId);
    SubsetSize(signed, reached);
    assert forall k: nat :: k < |replies| && replies[k].Some? ==> k in reached;
    if |reached| == 0 {
      assert reached == {};
    } else {
      var i :| i in reached;
      assert |reached - {i}| == 0;
      assert reached - {i} == {};
      assert forall k :: k in reached ==> k == i;
      if Signs(committee[i], replies[i], txId) {
        assert i in signed;
      } else {
        assert signed == {};
      }
    }
  }

  /** Without first contact exclusivity is lost: a payment that one provider had vetoed passes the check
      of the next provider that asks the same witness. */
  lemma VetoedPaymentFundedLater(r: Rules, w: NodeId, l: Ledger, now: real, e: Envelope, f: Envelope)
    requires InjectiveDigest(r) && Consistent(r, l) && Valid(r, now, e) && Valid(r, now, f) && Rivals(r, l, e, f)
    requires forall u :: u in Txs(l) ==> !SameSlot(u, TxOf(r, e.payload))
    ensures var hs := [Ask(now, e), Ask(now, f), Ask(now, f)];
            && Passes([w], [Some(AnswerAt(r, w, l, hs, 0))], r.digest(e.payload))
            && !Passes([w], [Some(AnswerAt(r, w, l, hs, 1))], r.digest(f.payload))
            && Passes([w], [Some(AnswerAt(r, w, l, hs, 2))], r.digest(f.payload))
  {
    var hs := [Ask(now, e), Ask(now, f), Ask(now, f)];
    VetoedThenSigned(r, w, l, now, e, f);
    SoleWitnessPasses(w, AnswerAt(r, w, l, hs, 0), r.digest(e.payload));
    SoleWitnessPasses(w, AnswerAt(r, w, l, hs, 1), r.digest(f.payload));
    SoleWitnessPasses(w, AnswerAt(r, w, l, hs, 2), r.digest(f.payload));
  }

  lemma SoleWitnessPasses(w: NodeId, reply: Reply, txId: nat)
    ensures Passes([w], [Some(reply)], txId) <==> reply.Granted? && Counted(reply.receipt, txId, w)
  {
    var replies := [Some(reply)];
    assert replies[0] == Some(reply);
    assert Reached(replies) == {0};
    assert Receipts([w], replies, txId) == if reply.Granted? && Counted(reply.receipt, txId, w) then {0} else {};
  }

  /** The evidence of the first veto, if there is one. */
  function FirstVeto(replies: seq<Option<Reply>>): (out: Option<seq<Envelope>>)
    ensures out.Some? <==> SomeoneVetoes(replies)
  {
    if replies == [] then None
    else if replies[0].Some? && replies[0].value.Vetoed? then Some(replies[0].value.evidence)
    else
      assert forall i :: 0 < i < |replies| ==> replies[i] == replies[1..][i - 1];
      FirstVeto(replies[1..])
  }

  lemma {:induction false} FirstVetoHere(replies: seq<Option<Reply>>, i: nat)
    requires i < |replies| && replies[i].Some? && replies[i].value.Vetoed?
    requires forall k :: 0 <= k < i ==> !(replies[k].Some? && replies[k].value.Vetoed?)
    ensures FirstVeto(replies) == Some(replies[i].value.evidence)
  {
    if i > 0 {
      FirstVetoHere(replies[1..], i - 1);
    }
  }

  // ---------------------------------------------------------------- the handlers

  class PeerNode {
    const me: NodeId
    const ledger: GossipLedger
    var marks: seq<NodeId>
    var outbox: seq<Envelope>

    constructor (me: NodeId, ledger: GossipLedger)
      ensures this.me == me && this.ledger == ledger && marks == [] && outbox == []
    {
      this.me, this.ledger, marks, outbox := me, ledger, [], [];
    }

    /** `None` is the refusal of an oversized batch. `PushMeaning` says what is passed on and marked. */
    method OnLedgerPush(now: real, envelopes: seq<Envelope>) returns (accepted: Option<nat>)
      requires ledger.Valid()
      modifies this, ledger
      ensures ledger.Valid()
      ensures |envelopes| > 500 ==>
                accepted == None && ledger.State() == old(ledger.State()) && marks == old(marks) && outbox == old(outbox)
      ensures |envelopes| <= 500 ==>
                && ledger.State() == Feed(ledger.rules, old(ledger.State()), Stamped(now, envelopes))
                && accepted == Some(|PassedOn(ledger.rules, now, old(ledger.State()), envelopes)|)
                && outbox == old(outbox) + PassedOn(ledger.rules, now, old(ledger.State()), envelopes)
                && marks == old(marks) + Marked(ledger.rules, now, old(ledger.State()), envelopes)
    {
      if |envelopes| > MAX_PUSH {
        return None;
      }
      ghost var before := ledger.State();
      var count := 0;
      for i := 0 to |envelopes|
        invariant ledger.Valid()
        invariant ledger.State() == Feed(ledger.rules, before, Stamped(now, envelopes[..i]))
        invariant count == |PassedOn(ledger.rules, now, before, envelopes[..i])|
        invariant outbox == old(outbox) + PassedOn(ledger.rules, now, before, envelopes[..i])
        invariant marks == old(marks) + Marked(ledger.rules, now, before, envelopes[..i])
      {
        PushStep(ledger.rules, now, before, envelopes, i);
        var status := PushOne(now, envelopes[i]);
        Regroup(old(outbox), PassedOn(ledger.rules, now, before, envelopes[..i]), if Stored(status) then [envelopes[i]] else []);
        Regroup(old(marks), Marked(ledger.rules, now, before, envelopes[..i]),
                if status == Conflict then [envelopes[i].payload.sender] else []);
        count := count + if status == New || status == Conflict then 1 else 0;
      }
      assert envelopes[..|envelopes|] == envelopes;
      return Some(count);
    }

    method PushOne(now: real, e: Envelope) returns (status: Status)
      requires ledger.Valid()
      modifies this, ledger
      ensures ledger.Valid() && ledger.State() == AddTx(ledger.rules, now, old(ledger.State()), e)
      ensures status == StatusOf(ledger.rules, now, old(ledger.State()), e)
      ensures outbox == old(outbox) + if Stored(status) then [e] else []
      ensures marks == old(marks) + if status == Conflict then [e.payload.sender] else []
    {
      status := ledger.Add(now, e);
      if status == New || status == Conflict {
        outbox := outbox + [e];
      }
      if status == Conflict {
        marks := marks + [e.payload.sender];
      }
    }

    method OnTxWitness(now: real, e: Envelope) returns (reply: Reply)
      requires ledger.Valid()
      modifies this, ledger
      ensures ledger.Valid()
      ensures reply == Answer(ledger.rules, me, now, old(ledger.State()), e)
      ensures ledger.State() == AddTx(ledger.rules, now, old(ledger.State()), e)
      ensures marks == old(marks) + if reply.Vetoed? then [e.payload.sender] else []
      ensures outbox == old(outbox) + if ledger.State() != old(ledger.State()) then [e] else []
    {
      var status := ledger.Add(now, e);
      if status == Invalid {
        return Refused;
      }
      if status == Conflict {
        marks := marks + [e.payload.sender];
        outbox := outbox + [e];
        var others := Others(ledger.rows, TxOf(ledger.rules, e.payload));
        return Vetoed(if others == [] then [] else [others[0]]);
      }
      if status == New {
        outbox := outbox + [e];
      }
      return Granted(Receipt(true, "receipt", ledger.rules.digest(e.payload), me, true));
    }

    /** The decision over the replies of a non-empty committee; evidence that comes with a veto goes
        into the provider's own ledger. */
    method WitnessCheck(now: real, txId: nat, sender: NodeId, committee: seq<NodeId>, replies: seq<Option<Reply>>)
      returns (ok: bool)
      requires ledger.Valid() && |committee| == |replies|
      modifies this, ledger
      ensures ledger.Valid()
      ensures ok <==> Passes(committee, replies, txId)
      ensures match FirstVeto(replies)
              case None =>
                ledger.State() == old(ledger.State()) && marks == old(marks) && outbox == old(outbox)
              case Some(evidence) =>
                && ledger.State() == Feed(ledger.rules, old(ledger.State()), Stamped(now, evidence))
                && marks == old(marks) + [sender] && outbox == old(outbox) + evidence
    {
      var receipts, reached := 0, 0;
      for i := 0 to |replies|
        invariant !SomeoneVetoes(replies[..i])
        invariant ledger.Valid() && ledger.State() == old(ledger.State()) && marks == old(marks) && outbox == old(outbox)
        invariant receipts == |Receipts(committee[..i], replies[..i], txId)|
        invariant reached == |Reached(replies[..i])|
      {
        CountReplies(committee, replies, txId, i);
        match replies[i]
        case None =>
        case Some(Granted(receipt)) =>
          reached := reached + 1;
          if Counted(receipt, txId, committee[i]) {
            receipts := receipts + 1;
          }
        case Some(Vetoed(evidence)) =>
          assert forall k :: 0 <= k < i ==> replies[..i][k] == replies[k];
          FirstVetoHere(replies, i);
          TakeEvidence(now, evidence);
          marks := marks + [sender];
          return false;
        case Some(Refused) =>
          reached := reached + 1;
      }
      assert replies[..|replies|] == replies && committee[..|committee|] == committee;
      var required := if reached < WITNESS_QUORUM then reached else WITNESS_QUORUM;
      return receipts >= required;
    }

    method TakeEvidence(now: real, evidence: seq<Envelope>)
      requires ledger.Valid()
      modifies this`outbox, ledger
      ensures ledger.Valid() && ledger.State() == Feed(ledger.rules, old(ledger.State()), Stamped(now, evidence))
      ensures outbox == old(outbox) + evidence
    {
      ghost var before := ledger.State();
      for i := 0 to |evidence|
        invariant outbox == old(outbox) + evidence[..i]
        invariant ledger.Valid() && ledger.State() == Feed(ledger.rules, before, Stamped(now, evidence[..i]))
      {
        FeedOneMore(ledger.rules, now, before, evidence, i);
        OneLonger(old(outbox), evidence, i);
        TakeOne(now, evidence[i]);
      }
      assert evidence[..|evidence|] == evidence;
    }

    method TakeOne(now: real, e: Envelope)
      requires ledger.Valid()
      modifies this`outbox, ledger
      ensures ledger.Valid() && ledger.State() == AddTx(ledger.rules, now, old(ledger.State()), e)
      ensures outbox == old(outbox) + [e]
    {
      var _ := ledger.Add(now, e);
      outbox := outbox + [e];
    }
  }

  function Stamped(now: real, es: seq<Envelope>): seq<Delivery> {
    seq(|es|, i requires 0 <= i < |es| => Delivery(now, es[i]))
  }

  function Envelopes(rows: seq<Row>): seq<Envelope> {
    seq(|rows|, i requires 0 <= i < |rows| => rows[i].envelope)
  }

  lemma Regroup<T>(a: seq<T>, b: seq<T>, c: seq<T>)
    ensures a + (b + c) == (a + b) + c
  {
  }

  /** The envelopes of a batch that get stored, and the senders of those that conflict. */
  function PassedOn(r: Rules, now: real, l: Ledger, es: seq<Envelope>): seq<Envelope>
    decreases |es|
  {
    if es == [] then []
    else
      var mid, e := Feed(r, l, Stamped(now, es[..|es| - 1])), es[|es| - 1];
      PassedOn(r, now, l, es[..|es| - 1]) + if Stored(StatusOf(r, now, mid, e)) then [e] else []
  }

  function Marked(r: Rules, now: real, l: Ledger, es: seq<Envelope>): seq<NodeId>
    decreases |es|
  {
    if es == [] then []
    else
      var mid, e := Feed(r, l, Stamped(now, es[..|es| - 1])), es[|es| - 1];
      Marked(r, now, l, es[..|es| - 1]) + if StatusOf(r, now, mid, e) == Conflict then [e.payload.sender] else []
  }

  lemma StampedFront(now: real, es: seq<Envelope>)
    requires es != []
    ensures Stamped(now, es)[..|es| - 1] == Stamped(now, es[..|es| - 1])
  {
  }

  lemma OneLonger<T>(before: seq<T>, s: seq<T>, i: nat)
    requires i < |s|
    ensures (before + s[..i]) + [s[i]] == before + s[..i + 1]
  {
  }

  lemma FeedOneMore(r: Rules, now: real, l: Ledger, es: seq<Envelope>, i: nat)
    requires i < |es|
    ensures Feed(r, l, Stamped(now, es[..i + 1])) == AddTx(r, now, Feed(r, l, Stamped(now, es[..i])), es[i])
  {
    assert es[..i + 1][..i] == es[..i];
    StampedFront(now, es[..i + 1]);
  }

  lemma PushStep(r: Rules, now: real, l: Ledger, es: seq<Envelope>, i: nat)
    requires i < |es|
    ensures var mid := Feed(r, l, Stamped(now, es[..i]));
            && Feed(r, l, Stamped(now, es[..i + 1])) == AddTx(r, now, mid, es[i])
            && PassedOn(r, now, l, es[..i + 1]) ==
                 PassedOn(r, now, l, es[..i]) + (if Stored(StatusOf(r, now, mid, es[i])) then [es[i]] else [])
            && Marked(r, now, l, es[..i + 1]) ==
                 Marked(r, now, l, es[..i]) +
                 (if StatusOf(r, now, mid, es[i]) == Conflict then [es[i].payload.sender] else [])
  {
    assert es[..i + 1][..i] == es[..i];
    StampedFront(now, es[..i + 1]);
  }

  /** A batch appends to the table exactly the envelopes it passes on, and the senders it marks are
      exactly those it adds to the provable double spenders, or proves guilty once more. */
  lemma {:induction false} PushMeaning(r: Rules, now: real, l: Ledger, es: seq<Envelope>)
    requires InjectiveDigest(r) && Consistent(r, l)
    ensures var l' := Feed(r, l, Stamped(now, es));
            && Consistent(r, l') && l.rows <= l'.rows
            && Envelopes(l'.rows[|l.rows|..]) == PassedOn(r, now, l, es)
            && forall n :: DoubleSpent(Txs(l'), n) <==> DoubleSpent(Txs(l), n) || n in Marked(r, now, l, es)
    decreases |es|
  {
    if es != [] {
      var k := |es| - 1;
      var mid := Feed(r, l, Stamped(now, es[..k]));
      PushMeaning(r, now, l, es[..k]);
      assert es[..k + 1] == es;
      PushStep(r, now, l, es, k);
      AddTxConsistent(r, now, mid, es[k]);
      DoubleSpendersStep(r, now, mid, es[k]);
      EnvelopesGrow(r, now, mid, es[k], |l.rows|);
    }
  }

  lemma EnvelopesGrow(r: Rules, now: real, l: Ledger, e: Envelope, from: nat)
    requires from <= |l.rows|
    ensures var l' := AddTx(r, now, l, e);
            && l.rows <= l'.rows
            && Envelopes(l'.rows[from..]) ==
                 Envelopes(l.rows[from..]) + if Stored(StatusOf(r, now, l, e)) then [e] else []
  {
  }

  /** One envelope exposes a new double spender exactly when its status is `conflict`. */
  lemma DoubleSpendersStep(r: Rules, now: real, l: Ledger, e: Envelope)
    requires InjectiveDigest(r) && Consistent(r, l)
    ensures var status, l' := StatusOf(r, now, l, e), AddTx(r, now, l, e);
            forall n :: DoubleSpent(Txs(l'), n) <==>
              DoubleSpent(Txs(l), n) || (status == Conflict && n == e.payload.sender)
  {
    if Stored(StatusOf(r, now, l, e)) {
      AddTxEffect(r, now, l, e);
      StatusMeaning(r, now, l, e);
      OneMoreSpend(Txs(l), TxOf(r, e.payload));
    }
  }

  lemma OneMoreSpend(s: set<Tx>, t: Tx)
    requires t !in s
    ensures forall n :: DoubleSpent(s + {t}, n) <==>
              DoubleSpent(s, n) || (n == t.sender && exists u :: u in s && SameSlot(u, t))
  {
    forall n
      ensures DoubleSpent(s + {t}, n) <==>
                DoubleSpent(s, n) || (n == t.sender && exists u :: u in s && SameSlot(u, t))
    {
      if n == t.sender && exists u :: u in s && SameSlot(u, t) {
        var u :| u in s && SameSlot(u, t);
        assert u in s + {t} && t in s + {t} && u != t;
      }
      if DoubleSpent(s, n) {
        var x, y :| x in s && y in s && x != y && SameSlot(x, y) && x.sender == n;
        assert x in s + {t} && y in s + {t};
      }
      if DoubleSpent(s + {t}, n) {
        var x, y :| x in s + {t} && y in s + {t} && x != y && SameSlot(x, y) && x.sender == n;
        assert SameSlot(y, x);
      }
    }
  }

  lemma CountReached(replies: seq<Option<Reply>>, i: nat)
    requires i < |replies|
    ensures |Reached(replies[..i + 1])| == |Reached(replies[..i])| + if replies[i].Some? then 1 else 0
  {
    var here: set<nat> := if replies[i].Some? then {i} else {};
    assert Reached(replies[..i + 1]) == Reached(replies[..i]) + here;
  }

  lemma CountReplies(committee: seq<NodeId>, replies: seq<Option<Reply>>, txId: nat, i: nat)
    requires |committee| == |replies| && i < |replies|
    ensures |Reached(replies[..i + 1])| == |Reached(replies[..i])| + if replies[i].Some? then 1 else 0
    ensures |Receipts(committee[..i + 1], replies[..i + 1], txId)| ==
              |Receipts(committee[..i], replies[..i], txId)| +
              if replies[i].Some? && replies[i].value.Granted? && Counted(replies[i].value.receipt, txId, committee[i])
              then 1 else 0
  {
    CountReached(replies, i);
    var good: set<nat> :=
      if replies[i].Some? && replies[i].value.Granted? && Counted(replies[i].value.receipt, txId, committee[i])
      then {i} else {};
    assert Receipts(committee[..i + 1], replies[..i + 1], txId) == Receipts(committee[..i], replies[..i], txId) + good;
  }
}
