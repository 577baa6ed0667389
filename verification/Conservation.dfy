/** Transfers move credits and never make them: over any set of accounts that contains everyone who
    was touched, balances minus the genesis credits add up to zero. */
module Conservation {
  import opened Sums
  import opened Wire
  import opened LedgerSpec
  import opened LedgerSteps

  ghost function NetCredits(l: Ledger): NodeId -> int {
    (n: NodeId) => BalanceOf(l, n) - GENESIS
  }

  ghost function NetBase(l: Ledger): NodeId -> int {
    (n: NodeId) => BaseRow(l.base, n).balance - GENESIS
  }

  ghost function Received(w: set<Tx>): NodeId -> int {
    (n: NodeId) => Sum(w, Incoming(n))
  }

  ghost function Paid(w: set<Tx>): NodeId -> int {
    (n: NodeId) => Sum(w, Outgoing(n))
  }

  function Amount(): Tx -> int {
    (t: Tx) => t.amount
  }

  function Only(who: NodeId, value: int): NodeId -> int {
    (n: NodeId) => if n == who then value else 0
  }

  ghost predicate BaseBalanced(l: Ledger) {
    Sum(l.base.Keys, NetBase(l)) == 0
  }

  lemma SumOnly(a: set<NodeId>, who: NodeId, value: int)
    requires who in a
    ensures Sum(a, Only(who, value)) == value
  {
    SumPick(a, Only(who, value), who);
    SumZero(a - {who}, Only(who, value));
  }

  /** What all accounts of `a` receive from `w` is what `w` moves, and likewise what they pay. */
  ghost predicate TwoEnds(a: set<NodeId>, w: set<Tx>) {
    Sum(a, Received(w)) == Sum(w, Amount()) == Sum(a, Paid(w))
  }

  lemma OneMoreTransfer(a: set<NodeId>, w: set<Tx>, t: Tx)
    requires t in w && t.sender in a && t.recipient in a && TwoEnds(a, w - {t})
    ensures TwoEnds(a, w)
  {
    forall n
      ensures Received(w)(n) == Only(t.recipient, t.amount)(n) + Received(w - {t})(n)
      ensures Paid(w)(n) == Only(t.sender, t.amount)(n) + Paid(w - {t})(n)
    {
      SumPick(w, Incoming(n), t);
      SumPick(w, Outgoing(n), t);
    }
    SumPlus(a, Only(t.recipient, t.amount), Received(w - {t}), Received(w));
    SumPlus(a, Only(t.sender, t.amount), Paid(w - {t}), Paid(w));
    SumOnly(a, t.recipient, t.amount);
    SumOnly(a, t.sender, t.amount);
    SumPick(w, Amount(), t);
  }

  lemma NoTransfers(a: set<NodeId>, w: set<Tx>)
    requires w == {}
    ensures TwoEnds(a, w)
  {
    SumZero(a, Received(w));
    SumZero(a, Paid(w));
  }

  lemma {:induction false} EveryTransferHasTwoEnds(a: set<NodeId>, w: set<Tx>)
    requires forall t :: t in w ==> t.sender in a && t.recipient in a
    ensures TwoEnds(a, w)
    decreases |w|
  {
    if w == {} {
      NoTransfers(a, w);
    } else {
      var t :| t in w;
      EveryTransferHasTwoEnds(a, w - {t});
      OneMoreTransfer(a, w, t);
    }
  }

  /** From a balanced baseline the whole ledger is balanced, displaced transfers included. */
  lemma CreditsConserved(l: Ledger, a: set<NodeId>)
    requires BaseBalanced(l) && AccountsOf(l) <= a
    ensures Sum(a, NetCredits(l)) == 0
  {
    var w := Winners(Txs(l));
    SumUnion(l.base.Keys, a - l.base.Keys, NetBase(l));
    assert l.base.Keys + (a - l.base.Keys) == a;
    SumZero(a - l.base.Keys, NetBase(l));
    EveryTransferHasTwoEnds(a, w);
    var spent := (n: NodeId) => BaseRow(l.base, n).balance - GENESIS - Paid(w)(n);
    SumPlus(a, spent, Paid(w), NetBase(l));
    SumPlus(a, spent, Received(w), NetCredits(l));
  }

  lemma EmptyBalanced()
    ensures BaseBalanced(EMPTY)
  {
  }

  lemma AddTxKeepsBalance(r: Rules, now: real, l: Ledger, e: Envelope)
    requires BaseBalanced(l)
    ensures BaseBalanced(AddTx(r, now, l, e))
  {
    SumEqual(l.base.Keys, NetBase(l), NetBase(AddTx(r, now, l, e)));
  }

  lemma SameNet(l: Ledger, l': Ledger)
    requires l'.base == SnapshotOf(l).accounts
    ensures l'.base.Keys == AccountsOf(l)
    ensures forall n :: n in AccountsOf(l) ==> NetBase(l')(n) == NetCredits(l)(n)
  {
    assert l'.base == FoldAll(l.base, Winners(Txs(l)));
  }

  /** A baseline that is the snapshot of a balanced ledger is balanced. */
  lemma SnapshotBaseBalanced(l: Ledger, l': Ledger)
    requires BaseBalanced(l) && l'.base == SnapshotOf(l).accounts
    ensures BaseBalanced(l')
  {
    CreditsConserved(l, AccountsOf(l));
    SameNet(l, l');
    SumEqual(AccountsOf(l), NetBase(l'), NetCredits(l));
  }

  lemma PruneKeepsBalance(l: Ledger)
    requires BaseBalanced(l)
    ensures BaseBalanced(Prune(l))
  {
    SnapshotBaseBalanced(l, Prune(l));
  }

  /** Adopting the snapshot of a balanced ledger, even when the adoption is refused. */
  lemma AdoptKeepsBalance(l: Ledger, source: Ledger)
    requires BaseBalanced(l) && BaseBalanced(source)
    ensures BaseBalanced(Adopt(l, SnapshotOf(source)))
  {
    if CanAdopt(l, SnapshotOf(source)) {
      SnapshotBaseBalanced(source, Adopt(l, SnapshotOf(source)));
    }
  }
}
