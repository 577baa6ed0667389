/** Replicas that start from one baseline and hear the same transfers agree on everything. */
module Convergence {
  import opened Wire
  import opened LedgerSpec
  import opened LedgerSteps

  /** One call of `add_tx`, with the clock reading it happened to see. */
  datatype Delivery = Delivery(now: real, envelope: Envelope)

  function Feed(r: Rules, l: Ledger, ds: seq<Delivery>): Ledger
    decreases |ds|
  {
    if ds == [] then l
    else
      var d := ds[|ds| - 1];
      AddTx(r, d.now, Feed(r, l, ds[..|ds| - 1]), d.envelope)
  }

  predicate Counts(r: Rules, base: map<NodeId, Account>, d: Delivery)
  {
    Valid(r, d.now, d.envelope) && d.envelope.payload.seqNo.value > BaseRow(base, d.envelope.payload.sender).seqNo
  }

  /** The transfers a replica with the baseline of `l` accepts from `ds`: a set, so order and
      repetition are already gone. */
  function Accepted(r: Rules, base: map<NodeId, Account>, ds: seq<Delivery>): set<Tx>
  {
    set d | d in ds && Counts(r, base, d) :: TxOf(r, d.envelope.payload)
  }

  lemma {:induction false} FeedStores(r: Rules, l: Ledger, ds: seq<Delivery>)
    requires InjectiveDigest(r) && Consistent(r, l)
    ensures Consistent(r, Feed(r, l, ds))
    ensures Feed(r, l, ds).base == l.base && Feed(r, l, ds).flagged == l.flagged
    ensures Txs(Feed(r, l, ds)) == Txs(l) + Accepted(r, l.base, ds)
    decreases |ds|
  {
    if ds == [] {
      assert Accepted(r, l.base, ds) == {};
    } else {
      var front, d := ds[..|ds| - 1], ds[|ds| - 1];
      var mid := Feed(r, l, front);
      FeedStores(r, l, front);
      AddTxConsistent(r, d.now, mid, d.envelope);
      FeedOne(r, mid, d);
      AcceptedLast(r, l.base, ds);
    }
  }

  lemma FeedOne(r: Rules, l: Ledger, d: Delivery)
    requires InjectiveDigest(r) && Consistent(r, l)
    ensures var l' := AddTx(r, d.now, l, d.envelope);
            && l'.base == l.base && l'.flagged == l.flagged
            && Txs(l') == Txs(l) + if Counts(r, l.base, d) then {TxOf(r, d.envelope.payload)} else {}
  {
    AddTxEffect(r, d.now, l, d.envelope);
  }

  lemma AcceptedLast(r: Rules, base: map<NodeId, Account>, ds: seq<Delivery>)
    requires ds != []
    ensures var d := ds[|ds| - 1];
            Accepted(r, base, ds) ==
              Accepted(r, base, ds[..|ds| - 1]) + if Counts(r, base, d) then {TxOf(r, d.envelope.payload)} else {}
  {
    assert ds == ds[..|ds| - 1] + [ds[|ds| - 1]];
  }

  /** Ledgers with one baseline and one set of transfers answer every question alike. */
  lemma SameBookSameAnswers(a: Ledger, b: Ledger)
    requires a.base == b.base && a.flagged == b.flagged && Txs(a) == Txs(b)
    ensures Winners(Txs(a)) == Winners(Txs(b)) && SnapshotOf(a) == SnapshotOf(b)
    ensures forall n :: SameAnswers(a, b, n)
  {
  }

  /** Strong convergence: any two orders, repetitions and clock readings under which the same
      transfers are accepted end in the same stored set, winners, answers and snapshot. */
  lemma StrongConvergence(r: Rules, a: Ledger, b: Ledger, ds: seq<Delivery>, es: seq<Delivery>)
    requires InjectiveDigest(r) && Consistent(r, a) && Consistent(r, b)
    requires a.base == b.base && a.flagged == b.flagged && Txs(a) == Txs(b)
    requires Accepted(r, a.base, ds) == Accepted(r, a.base, es)
    ensures var a', b' := Feed(r, a, ds), Feed(r, b, es);
            && Txs(a') == Txs(b') && Winners(Txs(a')) == Winners(Txs(b'))
            && SnapshotOf(a') == SnapshotOf(b') && forall n :: SameAnswers(a', b', n)
  {
    FeedStores(r, a, ds);
    FeedStores(r, b, es);
    SameBookSameAnswers(Feed(r, a, ds), Feed(r, b, es));
  }

  /** The form the documentation promises: the same set of valid deliveries in any order. */
  lemma OrderAndRepetitionDoNotMatter(r: Rules, l: Ledger, ds: seq<Delivery>, es: seq<Delivery>)
    requires InjectiveDigest(r) && Consistent(r, l)
    requires forall d :: d in ds <==> d in es
    ensures SnapshotOf(Feed(r, l, ds)) == SnapshotOf(Feed(r, l, es))
    ensures forall n :: SameAnswers(Feed(r, l, ds), Feed(r, l, es), n)
  {
    StrongConvergence(r, l, l, ds, es);
  }
}
