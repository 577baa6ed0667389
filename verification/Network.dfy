/** Any number of replicas, arbitrary gossip, prunes and snapshot adoptions, and adversaries that can
    publish whatever they like except another key's signature. One honest sender, who signs transfers
    only through `make_tx` on one ledger it never loses. */
module Network {
  import opened Sums
  import opened Wire
  import opened LedgerSpec
  import opened LedgerSteps
  import opened GossipLedgerClass
  import opened Conservation
  import opened Pruning

  datatype Setup = Setup(rules: Rules, honest: Identity, home: nat)

  datatype Net = Net(replicas: seq<Ledger>, signed: set<Payload>)

  datatype Action =
    | Sign(recipient: NodeId, amount: real, now: real)
    | Deliver(to: nat, now: real, envelope: Envelope)
    | PruneAt(at: nat)
    | AdoptFrom(at: nat, source: nat)

  /** The honest node id answers to one key only. */
  ghost predicate Sound(s: Setup)
  {
    forall key, nonce :: s.rules.bound(s.honest.nodeId, key, nonce) ==> key == s.honest.pubkey
  }

  ghost predicate Init(s: Setup, n: Net)
  {
    s.home < |n.replicas| && n.signed == {} && forall i :: 0 <= i < |n.replicas| ==> n.replicas[i] == EMPTY
  }

  /** Nobody holds a transfer under the honest key that the honest node did not sign. */
  predicate Unforged(s: Setup, n: Net, e: Envelope)
  {
    Opens(s.rules, e) && e.pubkey == s.honest.pubkey && e.payload.kind == "tx" ==> e.payload in n.signed
  }

  predicate Enabled(s: Setup, n: Net, a: Action)
    requires s.home < |n.replicas|
  {
    match a
    case Sign(_, _, _) => true
    case Deliver(to, _, e) => to < |n.replicas| && Unforged(s, n, e)
    case PruneAt(at) => at < |n.replicas|
    case AdoptFrom(at, source) => at < |n.replicas| && source < |n.replicas|
  }

  ghost function Step(s: Setup, n: Net, a: Action): (n': Net)
    requires s.home < |n.replicas| && Enabled(s, n, a)
    ensures |n'.replicas| == |n.replicas|
  {
    match a
    case Sign(recipient, amount, now) =>
      var home := n.replicas[s.home];
      var p := TxPayload(s.honest, recipient, amount, ClaimedSeq(home, s.honest.nodeId), TimeText(now));
      Net(n.replicas[s.home := ReserveSeq(home, s.honest.nodeId)], n.signed + {p})
    case Deliver(to, now, e) =>
      n.(replicas := n.replicas[to := AddTx(s.rules, now, n.replicas[to], e)])
    case PruneAt(at) =>
      n.(replicas := n.replicas[at := Prune(n.replicas[at])])
    case AdoptFrom(at, source) =>
      n.(replicas := n.replicas[at := Adopt(n.replicas[at], SnapshotOf(n.replicas[source]))])
  }

  // ---------------------------------------------------------------- what one replica keeps

  /** No trace of a double spend by the honest sender, and the books balance. */
  ghost predicate CleanReplica(s: Setup, signed: set<Payload>, l: Ledger)
  {
    && Consistent(s.rules, l) && BaseBalanced(l)
    && s.honest.nodeId !in l.flagged
    && forall row :: row in l.rows && row.tx.sender == s.honest.nodeId ==> row.envelope.payload in signed
  }

  /** Every signed transfer has a seq of its own. */
  ghost predicate OneTransferPerSeq(s: Setup, signed: set<Payload>)
  {
    && (forall p :: p in signed ==> p.sender == s.honest.nodeId && p.seqNo.Some?)
    && (forall p, q :: p in signed && q in signed && p.seqNo == q.seqNo ==> p == q)
  }

  ghost predicate SeqsReserved(s: Setup, signed: set<Payload>, home: Ledger)
  {
    forall p :: p in signed ==>
      p.seqNo.Some? && s.honest.nodeId in home.reserved && p.seqNo.value <= home.reserved[s.honest.nodeId]
  }

  ghost predicate Safe(s: Setup, n: Net)
  {
    && s.home < |n.replicas|
    && OneTransferPerSeq(s, n.signed)
    && SeqsReserved(s, n.signed, n.replicas[s.home])
    && forall i :: 0 <= i < |n.replicas| ==> CleanReplica(s, n.signed, n.replicas[i])
  }

  lemma CleanMeansNoDoubleSpend(s: Setup, signed: set<Payload>, l: Ledger)
    requires OneTransferPerSeq(s, signed) && CleanReplica(s, signed, l)
    ensures !DoubleSpent(Txs(l), s.honest.nodeId)
  {
    forall t, u | t in Txs(l) && u in Txs(l) && SameSlot(t, u) && t.sender == s.honest.nodeId
      ensures t == u
    {
      var row :| row in l.rows && row.tx == t;
      var other :| other in l.rows && other.tx == u;
      assert row.envelope.payload == other.envelope.payload;
    }
  }

  lemma CleanMore(s: Setup, signed: set<Payload>, more: set<Payload>, l: Ledger)
    requires signed <= more && CleanReplica(s, signed, l)
    ensures CleanReplica(s, more, l)
  {
  }

  lemma CleanReserve(s: Setup, signed: set<Payload>, l: Ledger, n: NodeId)
    requires CleanReplica(s, signed, l)
    ensures CleanReplica(s, signed, ReserveSeq(l, n))
  {
    SumEqual(l.base.Keys, NetBase(l), NetBase(ReserveSeq(l, n)));
  }

  lemma CleanDeliver(s: Setup, n: Net, now: real, l: Ledger, e: Envelope)
    requires Sound(s) && CleanReplica(s, n.signed, l) && Unforged(s, n, e)
    ensures CleanReplica(s, n.signed, AddTx(s.rules, now, l, e))
  {
    AddTxConsistent(s.rules, now, l, e);
    AddTxKeepsBalance(s.rules, now, l, e);
    var l' := AddTx(s.rules, now, l, e);
    forall row | row in l'.rows && row.tx.sender == s.honest.nodeId
      ensures row.envelope.payload in n.signed
    {
      if row !in l.rows {
        assert row.envelope == e && Genuine(s.rules, e);
      }
    }
  }

  lemma CleanPrune(s: Setup, signed: set<Payload>, l: Ledger)
    requires OneTransferPerSeq(s, signed) && CleanReplica(s, signed, l)
    ensures CleanReplica(s, signed, Prune(l))
  {
    PruneConsistent(s.rules, l);
    PruneKeepsBalance(l);
    CleanMeansNoDoubleSpend(s, signed, l);
    SpenderIsSender(Txs(l), s.honest.nodeId);
  }

  lemma CleanAdopt(s: Setup, signed: set<Payload>, l: Ledger, source: Ledger)
    requires OneTransferPerSeq(s, signed) && CleanReplica(s, signed, l) && CleanReplica(s, signed, source)
    ensures CleanReplica(s, signed, Adopt(l, SnapshotOf(source)))
  {
    AdoptKeepsBalance(l, source);
    SnapshotUnflagged(s, signed, source);
    if CanAdopt(l, SnapshotOf(source)) {
      NoRowsClean(s, signed, Adopt(l, SnapshotOf(source)));
    }
  }

  lemma NoRowsClean(s: Setup, signed: set<Payload>, l: Ledger)
    requires l.rows == [] && BaseBalanced(l) && s.honest.nodeId !in l.flagged
    ensures CleanReplica(s, signed, l)
  {
  }

  lemma SnapshotUnflagged(s: Setup, signed: set<Payload>, l: Ledger)
    requires OneTransferPerSeq(s, signed) && CleanReplica(s, signed, l)
    ensures s.honest.nodeId !in SnapshotOf(l).flagged
  {
    CleanMeansNoDoubleSpend(s, signed, l);
    SpenderIsSender(Txs(l), s.honest.nodeId);
  }

  lemma AdoptShape(l: Ledger, snap: Snapshot)
    ensures Adopt(l, snap) == l || Adopt(l, snap).rows == []
    ensures Adopt(l, snap).flagged <= l.flagged + snap.flagged && Adopt(l, snap).reserved == l.reserved
  {
  }

  /** Replacing one replica by a clean one with the same reservations keeps the network safe. */
  lemma SafeReplace(s: Setup, n: Net, i: nat, l: Ledger)
    requires Safe(s, n) && i < |n.replicas|
    requires CleanReplica(s, n.signed, l) && l.reserved == n.replicas[i].reserved
    ensures Safe(s, n.(replicas := n.replicas[i := l]))
  {
  }

  // ---------------------------------------------------------------- every step, every run

  lemma SafeSign(s: Setup, n: Net, a: Action)
    requires Sound(s) && Safe(s, n) && a.Sign?
    ensures Safe(s, Step(s, n, a))
  {
    var home := n.replicas[s.home];
    var n' := Step(s, n, a);
    assert n'.replicas[s.home].reserved[s.honest.nodeId] == ClaimedSeq(home, s.honest.nodeId);
    forall i | 0 <= i < |n'.replicas| ensures CleanReplica(s, n'.signed, n'.replicas[i]) {
      CleanReserve(s, n.signed, home, s.honest.nodeId);
      CleanMore(s, n.signed, n'.signed, n'.replicas[i]);
    }
  }

  lemma SafeStep(s: Setup, n: Net, a: Action)
    requires Sound(s) && Safe(s, n) && Enabled(s, n, a)
    ensures Safe(s, Step(s, n, a))
  {
    match a
    case Sign(_, _, _) => SafeSign(s, n, a);
    case Deliver(to, now, e) =>
      CleanDeliver(s, n, now, n.replicas[to], e);
      SafeReplace(s, n, to, AddTx(s.rules, now, n.replicas[to], e));
    case PruneAt(at) =>
      CleanPrune(s, n.signed, n.replicas[at]);
      SafeReplace(s, n, at, Prune(n.replicas[at]));
    case AdoptFrom(at, source) =>
      CleanAdopt(s, n.signed, n.replicas[at], n.replicas[source]);
      AdoptShape(n.replicas[at], SnapshotOf(n.replicas[source]));
      SafeReplace(s, n, at, Adopt(n.replicas[at], SnapshotOf(n.replicas[source])));
  }

  /** A run: the states and the actions between them. */
  ghost predicate Run(s: Setup, nets: seq<Net>, actions: seq<Action>)
  {
    && |nets| == |actions| + 1 && Init(s, nets[0])
    && forall k {:trigger actions[k]} :: 0 <= k < |actions| ==>
         s.home < |nets[k].replicas| && Enabled(s, nets[k], actions[k]) && nets[k + 1] == Step(s, nets[k], actions[k])
  }

  lemma {:induction false} AlwaysSafe(s: Setup, nets: seq<Net>, actions: seq<Action>, k: nat)
    requires Sound(s) && Run(s, nets, actions) && k < |nets|
    ensures Safe(s, nets[k])
  {
    if k == 0 {
      EmptyBalanced();
    } else {
      AlwaysSafe(s, nets, actions, k - 1);
      SafeStep(s, nets[k - 1], actions[k - 1]);
    }
  }

  /** In every state of every run, on every replica: the honest sender is not among the double
      spenders, not in the flagged baseline, not flagged in any snapshot, and so is flagged only if
      that replica sees it overdrawn. */
  lemma HonestSenderNeverReported(s: Setup, nets: seq<Net>, actions: seq<Action>, k: nat, i: nat)
    requires Sound(s) && Run(s, nets, actions) && k < |nets| && i < |nets[k].replicas|
    ensures var l := nets[k].replicas[i];
            && s.honest.nodeId !in DoubleSpenders(Txs(l)) && s.honest.nodeId !in SnapshotOf(l).flagged
            && (FlaggedIn(l, s.honest.nodeId) <==> BalanceOf(l, s.honest.nodeId) < 0)
  {
    AlwaysSafe(s, nets, actions, k);
    CleanMeansNoDoubleSpend(s, nets[k].signed, nets[k].replicas[i]);
    SpenderIsSender(Txs(nets[k].replicas[i]), s.honest.nodeId);
  }

  /** In every state of every run the honest sender's transfers have pairwise different seqs. */
  lemma HonestSeqsDistinct(s: Setup, nets: seq<Net>, actions: seq<Action>, k: nat, p: Payload, q: Payload)
    requires Sound(s) && Run(s, nets, actions) && k < |nets| && p in nets[k].signed && q in nets[k].signed
    ensures p.seqNo == q.seqNo ==> p == q
  {
    AlwaysSafe(s, nets, actions, k);
  }

  /** In every state of every run each replica's accounts add up to the genesis credits. */
  lemma CreditsConservedEverywhere(s: Setup, nets: seq<Net>, actions: seq<Action>, k: nat, i: nat, a: set<NodeId>)
    requires Sound(s) && Run(s, nets, actions) && k < |nets| && i < |nets[k].replicas|
    requires AccountsOf(nets[k].replicas[i]) <= a
    ensures Sum(a, NetCredits(nets[k].replicas[i])) == 0
  {
    AlwaysSafe(s, nets, actions, k);
    CreditsConserved(nets[k].replicas[i], a);
  }

  // ---------------------------------------------------------------- watermarks

  /** No account of the baseline has a negative seq. */
  ghost predicate SeqsNatural(l: Ledger) {
    forall n :: BaseRow(l.base, n).seqNo >= 0
  }

  ghost predicate NoneFalls(before: Ledger, after: Ledger) {
    forall n :: BaseRow(before.base, n).seqNo <= BaseRow(after.base, n).seqNo
  }

  lemma SnapshotSeqs(l: Ledger)
    requires SeqsNatural(l)
    ensures forall n :: BaseRow(l.base, n).seqNo <= BaseRow(SnapshotOf(l).accounts, n).seqNo
  {
    forall n ensures BaseRow(l.base, n).seqNo <= BaseRow(SnapshotOf(l).accounts, n).seqNo {
      SnapshotAnswers(l, n);
    }
  }

  lemma WatermarkStep(s: Setup, n: Net, a: Action, i: nat)
    requires s.home < |n.replicas| && Enabled(s, n, a) && i < |n.replicas|
    requires forall j :: 0 <= j < |n.replicas| ==> SeqsNatural(n.replicas[j])
    ensures NoneFalls(n.replicas[i], Step(s, n, a).replicas[i]) && SeqsNatural(Step(s, n, a).replicas[i])
  {
    match a
    case Sign(_, _, _) =>
    case Deliver(_, _, _) =>
    case PruneAt(at) => SnapshotSeqs(n.replicas[at]);
    case AdoptFrom(at, source) =>
      SnapshotSeqs(n.replicas[source]);
      AdoptExactly(n.replicas[at], SnapshotOf(n.replicas[source]));
  }

  lemma {:induction false} WatermarksNatural(s: Setup, nets: seq<Net>, actions: seq<Action>, k: nat)
    requires Run(s, nets, actions) && k < |nets|
    ensures |nets[k].replicas| == |nets[0].replicas|
    ensures forall i :: 0 <= i < |nets[k].replicas| ==> SeqsNatural(nets[k].replicas[i])
  {
    if k > 0 {
      WatermarksNatural(s, nets, actions, k - 1);
      assert nets[k] == Step(s, nets[k - 1], actions[k - 1]);
      forall i | 0 <= i < |nets[k].replicas| ensures SeqsNatural(nets[k].replicas[i]) {
        WatermarkStep(s, nets[k - 1], actions[k - 1], i);
      }
    }
  }

  /** Over every run, with prunes and adoptions anywhere, no watermark of any replica ever falls. */
  lemma {:induction false} WatermarksNeverFall(s: Setup, nets: seq<Net>, actions: seq<Action>, j: nat, k: nat, i: nat)
    requires Run(s, nets, actions) && j <= k < |nets| && i < |nets[0].replicas|
    ensures |nets[j].replicas| == |nets[k].replicas| == |nets[0].replicas|
    ensures forall n :: BaseRow(nets[j].replicas[i].base, n).seqNo <= BaseRow(nets[k].replicas[i].base, n).seqNo
    decreases k
  {
    WatermarksNatural(s, nets, actions, j);
    WatermarksNatural(s, nets, actions, k);
    if j < k {
      WatermarksNeverFall(s, nets, actions, j, k - 1, i);
      WatermarksNatural(s, nets, actions, k - 1);
      assert nets[k] == Step(s, nets[k - 1], actions[k - 1]);
      WatermarkStep(s, nets[k - 1], actions[k - 1], i);
    }
  }
}
