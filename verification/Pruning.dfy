/** Folding history into the baseline cannot be noticed, as long as nothing below the watermark
    arrives for the first time; and exactly what happens when it does. */
module Pruning {
  import opened Basics
  import opened Sums
  import opened Wire
  import opened LedgerSpec
  import opened LedgerSteps

  // ---------------------------------------------------------------- folding is an action of sets

  lemma UntouchedContributesNothing(w: set<Tx>, n: NodeId, floor: int)
    requires n !in Parties(w)
    ensures Sum(w, Incoming(n)) == 0 == Sum(w, Outgoing(n)) && TopSeq(w, n, floor) == floor
  {
    forall t | t in w ensures t.sender != n && t.recipient != n {
      assert t.sender in Senders(w) && t.recipient in Parties(w);
    }
    SumZero(w, Incoming(n));
    SumZero(w, Outgoing(n));
  }

  /** Reading the folded table is folding the row that was read, touched or not. */
  lemma ReadFolded(base: map<NodeId, Account>, w: set<Tx>, n: NodeId)
    ensures BaseRow(FoldAll(base, w), n) == Folded(base, w, n)
  {
    if n !in Touched(base, w) {
      UntouchedContributesNothing(w, n, BaseRow(base, n).seqNo);
    }
  }

  lemma TopSeqSplit(a: set<Tx>, b: set<Tx>, n: NodeId, floor: int)
    ensures TopSeq(b, n, TopSeq(a, n, floor)) == TopSeq(a + b, n, floor)
  {
    var m := TopSeq(b, n, TopSeq(a, n, floor));
    assert IsTop(a + b, n, floor, m);
  }

  lemma FoldedTwice(base: map<NodeId, Account>, a: set<Tx>, b: set<Tx>, n: NodeId)
    requires a !! b
    ensures Folded(FoldAll(base, a), b, n) == Folded(base, a + b, n)
  {
    ReadFolded(base, a, n);
    SumUnion(a, b, Incoming(n));
    SumUnion(a, b, Outgoing(n));
    TopSeqSplit(a, b, n, BaseRow(base, n).seqNo);
  }

  lemma TouchedTwice(base: map<NodeId, Account>, a: set<Tx>, b: set<Tx>)
    ensures Touched(FoldAll(base, a), b) == Touched(base, a + b)
  {
    assert FoldAll(base, a).Keys == base.Keys + Parties(a);
    assert Parties(a + b) == Parties(a) + Parties(b);
  }

  /** Folding in two instalments is folding once. */
  lemma FoldTwice(base: map<NodeId, Account>, a: set<Tx>, b: set<Tx>)
    requires a !! b
    ensures FoldAll(FoldAll(base, a), b) == FoldAll(base, a + b)
  {
    TouchedTwice(base, a, b);
    SameFolds(FoldAll(base, a), b, base, a + b) by {
      forall n ensures Folded(FoldAll(base, a), b, n) == Folded(base, a + b, n) {
        FoldedTwice(base, a, b, n);
      }
    }
  }

  lemma SameFolds(base: map<NodeId, Account>, w: set<Tx>, base': map<NodeId, Account>, w': set<Tx>)
    requires Touched(base, w) == Touched(base', w')
    requires forall n :: Folded(base, w, n) == Folded(base', w', n)
    ensures FoldAll(base, w) == FoldAll(base', w')
  {
  }

  lemma FoldNothing(base: map<NodeId, Account>)
    ensures FoldAll(base, {}) == base
  {
    forall n | n in base ensures Folded(base, {}, n) == base[n] {
      UntouchedContributesNothing({}, n, base[n].seqNo);
    }
    assert FoldAll(base, {}).Keys == base.Keys;
  }

  // ---------------------------------------------------------------- the snapshot answers everything

  /** The answers a snapshot gives on its own. */
  ghost predicate Answers(s: Snapshot, l: Ledger, n: NodeId)
  {
    var row := BaseRow(s.accounts, n);
    && BalanceOf(l, n) == row.balance && EarnedOf(l, n) == row.earned
    && NextSeqOf(l, n) == Max(0, row.seqNo) + 1
    && (FlaggedIn(l, n) <==> n in s.flagged || row.balance < 0)
  }

  lemma NextSeqAnswer(l: Ledger, n: NodeId)
    ensures NextSeqOf(l, n) == Max(0, BaseRow(SnapshotOf(l).accounts, n).seqNo) + 1
  {
    var floor := BaseRow(l.base, n).seqNo;
    ReadFolded(l.base, Winners(Txs(l)), n);
    TopSeqOfWinners(Txs(l), n, floor);
    TopSeqUnique(Txs(l), n, Max(0, floor), Max(0, TopSeq(Txs(l), n, floor)));
  }

  lemma SnapshotAnswers(l: Ledger, n: NodeId)
    ensures Answers(SnapshotOf(l), l, n)
  {
    NextSeqAnswer(l, n);
    ReadFolded(l.base, Winners(Txs(l)), n);
    SpenderIsSender(Txs(l), n);
  }

  lemma SameSnapshotSameAnswers(a: Ledger, b: Ledger)
    requires SnapshotOf(a) == SnapshotOf(b)
    ensures forall n :: SameAnswers(a, b, n)
  {
    forall n ensures SameAnswers(a, b, n) {
      SnapshotAnswers(a, n);
      SnapshotAnswers(b, n);
    }
  }

  /** `snapshot` reads the same before and after `prune`. */
  lemma PruneKeepsSnapshot(l: Ledger)
    ensures SnapshotOf(Prune(l)) == SnapshotOf(l)
  {
    assert Txs(Prune(l)) == {} == Winners({}) && DoubleSpenders({}) == {};
    FoldNothing(SnapshotOf(l).accounts);
  }

  lemma PruneConsistent(r: Rules, l: Ledger)
    requires Consistent(r, l)
    ensures Consistent(r, Prune(l))
  {
  }

  /** After a successful adoption the snapshot is the adopted one exactly when no flag was left over
      from an earlier adoption of a snapshot without accounts. */
  lemma AdoptedSnapshot(l: Ledger, s: Snapshot)
    requires CanAdopt(l, s)
    ensures SnapshotOf(Adopt(l, s)) == s <==> l.flagged <= s.flagged
  {
    assert Txs(Adopt(l, s)) == {} == Winners({}) && DoubleSpenders({}) == {};
    FoldNothing(s.accounts);
  }

  /** A snapshot of one flag and no account, adopted by an empty ledger, lets another one follow, and the
      flag stays: what is read back is not what was adopted. */
  lemma LeftoverFlagShows(n: NodeId)
    ensures var first, second := Snapshot(1, map[], {n}), Snapshot(1, map[], {});
            && CanAdopt(EMPTY, first) && CanAdopt(Adopt(EMPTY, first), second)
            && SnapshotOf(Adopt(Adopt(EMPTY, first), second)) != second
  {
    AdoptedSnapshot(Adopt(EMPTY, Snapshot(1, map[], {n})), Snapshot(1, map[], {}));
  }

  // ---------------------------------------------------------------- the pruned ledger simulates the full one

  function Low(full: Ledger, cut: Ledger): set<Tx> {
    set t | t in Txs(full) && t.seqNo <= BaseRow(cut.base, t.sender).seqNo
  }

  /** `cut` is `full` with everything at or below its own watermark folded away. */
  ghost predicate Refines(full: Ledger, cut: Ledger)
  {
    var low := Low(full, cut);
    && Txs(cut) == Txs(full) - low
    && cut.base == FoldAll(full.base, Winners(low))
    && cut.flagged == full.flagged + DoubleSpenders(low)
  }

  ghost predicate Apart(a: set<Tx>, b: set<Tx>) {
    forall t, u :: t in a && u in b ==> !SameSlot(t, u)
  }

  lemma WinnersApart(a: set<Tx>, b: set<Tx>)
    requires Apart(a, b)
    ensures Winners(a + b) == Winners(a) + Winners(b) && Winners(a) !! Winners(b)
  {
    forall t | t in a + b ensures t in Winners(a + b) <==> t in Winners(a) + Winners(b) {
    }
    forall t | t in Winners(a) && t in Winners(b) ensures false {
      assert SameSlot(t, t);
    }
  }

  lemma DoubleSpendersApart(a: set<Tx>, b: set<Tx>)
    requires Apart(a, b)
    ensures DoubleSpenders(a + b) == DoubleSpenders(a) + DoubleSpenders(b)
  {
    forall n ensures DoubleSpent(a + b, n) <==> DoubleSpent(a, n) || DoubleSpent(b, n) {
      if DoubleSpent(a + b, n) {
        var t, u :| t in a + b && u in a + b && t != u && SameSlot(t, u) && t.sender == n;
        assert SameSlot(u, t);
        assert (t in a && u in a) || (t in b && u in b);
      }
    }
    forall n ensures n in DoubleSpenders(a + b) <==> n in DoubleSpenders(a) + DoubleSpenders(b) {
      SpenderIsSender(a, n);
      SpenderIsSender(b, n);
      SpenderIsSender(a + b, n);
    }
  }

  lemma SpenderIsSender(s: set<Tx>, n: NodeId)
    ensures n in DoubleSpenders(s) <==> DoubleSpent(s, n)
  {
    if DoubleSpent(s, n) {
      var t, u :| t in s && u in s && t != u && SameSlot(t, u) && t.sender == n;
      assert t.sender in Senders(s);
    }
  }

  lemma FoldApart(base: map<NodeId, Account>, a: set<Tx>, b: set<Tx>)
    requires Apart(a, b)
    ensures FoldAll(FoldAll(base, Winners(a)), Winners(b)) == FoldAll(base, Winners(a + b))
  {
    WinnersApart(a, b);
    FoldTwice(base, Winners(a), Winners(b));
  }

  lemma SnapshotApart(full: Ledger, cut: Ledger, low: set<Tx>, high: set<Tx>)
    requires Txs(full) == low + high && Txs(cut) == high && Apart(low, high)
    requires cut.base == FoldAll(full.base, Winners(low)) && cut.flagged == full.flagged + DoubleSpenders(low)
    ensures SnapshotOf(cut) == SnapshotOf(full)
  {
    FoldApart(full.base, low, high);
    DoubleSpendersApart(low, high);
  }

  lemma LowHigh(full: Ledger, cut: Ledger)
    requires Refines(full, cut)
    ensures Txs(full) == Low(full, cut) + Txs(cut) && Apart(Low(full, cut), Txs(cut))
  {
  }

  lemma RefinesSameSnapshot(full: Ledger, cut: Ledger)
    requires Refines(full, cut)
    ensures SnapshotOf(cut) == SnapshotOf(full)
  {
    LowHigh(full, cut);
    SnapshotApart(full, cut, Low(full, cut), Txs(cut));
  }

  lemma RefinesRefl(r: Rules, l: Ledger)
    requires Consistent(r, l)
    ensures Refines(l, l)
  {
    ConsistentTxs(r, l);
    assert Low(l, l) == {} == Winners({}) && DoubleSpenders({}) == {};
    FoldNothing(l.base);
  }

  lemma WatermarkRises(full: Ledger, cut: Ledger, n: NodeId)
    requires Refines(full, cut)
    ensures BaseRow(full.base, n).seqNo <= BaseRow(cut.base, n).seqNo
  {
    ReadFolded(full.base, Winners(Low(full, cut)), n);
  }

  /** Every counted-or-not transfer of an account lies at or below the seq its snapshot records. */
  lemma SnapshotSeqCovers(l: Ledger, t: Tx)
    requires t in Txs(l)
    ensures t.seqNo <= BaseRow(SnapshotOf(l).accounts, t.sender).seqNo
  {
    ReadFolded(l.base, Winners(Txs(l)), t.sender);
    TopSeqOfWinners(Txs(l), t.sender, BaseRow(l.base, t.sender).seqNo);
  }

  lemma RefinesPrune(full: Ledger, cut: Ledger)
    requires Refines(full, cut)
    ensures Refines(full, Prune(cut))
  {
    RefinesSameSnapshot(full, cut);
    PrunedLow(full, Prune(cut));
    assert Txs(Prune(cut)) == {};
  }

  lemma PrunedLow(full: Ledger, pruned: Ledger)
    requires pruned.base == SnapshotOf(full).accounts
    ensures Low(full, pruned) == Txs(full)
  {
    forall t | t in Txs(full) ensures t in Low(full, pruned) {
      SnapshotSeqCovers(full, t);
    }
  }

  /** A transfer above the watermark is handled alike by both, down to the status. */
  lemma SameStatusAbove(r: Rules, now: real, full: Ledger, cut: Ledger, e: Envelope)
    requires InjectiveDigest(r) && Consistent(r, full) && Consistent(r, cut) && Refines(full, cut)
    requires Valid(r, now, e) && e.payload.seqNo.value > BaseRow(cut.base, e.payload.sender).seqNo
    ensures StatusOf(r, now, full, e) == StatusOf(r, now, cut, e)
  {
    var t := TxOf(r, e.payload);
    WatermarkRises(full, cut, t.sender);
    StatusMeaning(r, now, full, e);
    StatusMeaning(r, now, cut, e);
    assert forall u :: u in Txs(full) && SameSlot(u, t) ==> u in Txs(cut);
  }

  lemma RefinesHearAbove(r: Rules, now: real, full: Ledger, cut: Ledger, e: Envelope)
    requires InjectiveDigest(r) && Consistent(r, full) && Consistent(r, cut) && Refines(full, cut)
    requires Valid(r, now, e) && e.payload.seqNo.value > BaseRow(cut.base, e.payload.sender).seqNo
    ensures Refines(AddTx(r, now, full, e), AddTx(r, now, cut, e))
  {
    WatermarkRises(full, cut, e.payload.sender);
    AddTxEffect(r, now, full, e);
    AddTxEffect(r, now, cut, e);
    RefinesStored(full, cut, AddTx(r, now, full, e), AddTx(r, now, cut, e), TxOf(r, e.payload));
  }

  lemma RefinesStored(full: Ledger, cut: Ledger, full': Ledger, cut': Ledger, t: Tx)
    requires Refines(full, cut) && t.seqNo > BaseRow(cut.base, t.sender).seqNo
    requires full'.base == full.base && full'.flagged == full.flagged && Txs(full') == Txs(full) + {t}
    requires cut'.base == cut.base && cut'.flagged == cut.flagged && Txs(cut') == Txs(cut) + {t}
    ensures Refines(full', cut')
  {
    assert Low(full', cut') == Low(full, cut);
  }

  /** What may be heard without anyone noticing the pruning: anything that fails the envelope checks,
      replays of stored transfers, and transfers above the sender's watermark. */
  ghost predicate Unnoticed(r: Rules, now: real, full: Ledger, cut: Ledger, e: Envelope)
  {
    Valid(r, now, e) ==>
      || TxOf(r, e.payload) in Txs(full)
      || e.payload.seqNo.value > BaseRow(cut.base, e.payload.sender).seqNo
      || e.payload.seqNo.value <= BaseRow(full.base, e.payload.sender).seqNo
  }

  /** One `add_tx`: the relation survives, and the statuses agree except that the pruned ledger says
      `stale` where the full one still recognises the transfer or rejects its identity. */
  lemma RefinesHear(r: Rules, now: real, full: Ledger, cut: Ledger, e: Envelope)
    requires InjectiveDigest(r) && Consistent(r, full) && Consistent(r, cut) && Refines(full, cut)
    requires Unnoticed(r, now, full, cut, e)
    ensures Refines(AddTx(r, now, full, e), AddTx(r, now, cut, e))
    ensures || StatusOf(r, now, cut, e) == StatusOf(r, now, full, e)
            || (StatusOf(r, now, cut, e) == Stale && StatusOf(r, now, full, e) in {Known, Invalid})
  {
    if Valid(r, now, e) && e.payload.seqNo.value > BaseRow(cut.base, e.payload.sender).seqNo {
      RefinesHearAbove(r, now, full, cut, e);
      SameStatusAbove(r, now, full, cut, e);
    } else {
      RefinesHearBelow(r, now, full, cut, e);
    }
  }

  /** What fails the checks or lies at or below the watermark changes neither ledger. */
  lemma RefinesHearBelow(r: Rules, now: real, full: Ledger, cut: Ledger, e: Envelope)
    requires InjectiveDigest(r) && Consistent(r, full) && Consistent(r, cut) && Refines(full, cut)
    requires Unnoticed(r, now, full, cut, e)
    requires Valid(r, now, e) ==> e.payload.seqNo.value <= BaseRow(cut.base, e.payload.sender).seqNo
    ensures AddTx(r, now, full, e) == full && AddTx(r, now, cut, e) == cut
    ensures || StatusOf(r, now, cut, e) == StatusOf(r, now, full, e)
            || (StatusOf(r, now, cut, e) == Stale && StatusOf(r, now, full, e) in {Known, Invalid})
  {
    Ignored(r, now, cut, e);
    if Valid(r, now, e) && e.payload.seqNo.value > BaseRow(full.base, e.payload.sender).seqNo {
      StatusMeaning(r, now, full, e);
    } else {
      Ignored(r, now, full, e);
      if WellFormed(r, now, e) {
        WatermarkRises(full, cut, e.payload.sender);
      }
    }
  }

  lemma Ignored(r: Rules, now: real, l: Ledger, e: Envelope)
    requires Valid(r, now, e) ==> e.payload.seqNo.value <= BaseRow(l.base, e.payload.sender).seqNo
    ensures AddTx(r, now, l, e) == l
    ensures StatusOf(r, now, l, e)
         == if WellFormed(r, now, e) && e.payload.seqNo.value <= BaseRow(l.base, e.payload.sender).seqNo then Stale
            else Invalid
  {
  }

  // ---------------------------------------------------------------- whole runs

  datatype Op = Hear(now: real, envelope: Envelope) | Compact

  function RunFull(r: Rules, l: Ledger, ops: seq<Op>): Ledger
    decreases |ops|
  {
    if ops == [] then l
    else
      var before := RunFull(r, l, ops[..|ops| - 1]);
      match ops[|ops| - 1]
      case Hear(now, e) => AddTx(r, now, before, e)
      case Compact => before
  }

  ghost function RunCut(r: Rules, l: Ledger, ops: seq<Op>): Ledger
    decreases |ops|
  {
    if ops == [] then l
    else
      var before := RunCut(r, l, ops[..|ops| - 1]);
      match ops[|ops| - 1]
      case Hear(now, e) => AddTx(r, now, before, e)
      case Compact => Prune(before)
  }

  /** At every step of the run only unnoticed envelopes are heard. */
  ghost predicate QuietRun(r: Rules, l: Ledger, ops: seq<Op>)
  {
    forall k :: 0 <= k < |ops| && ops[k].Hear? ==>
      Unnoticed(r, ops[k].now, RunFull(r, l, ops[..k]), RunCut(r, l, ops[..k]), ops[k].envelope)
  }

  lemma QuietPrefix(r: Rules, l: Ledger, ops: seq<Op>, k: nat)
    requires QuietRun(r, l, ops) && k <= |ops|
    ensures QuietRun(r, l, ops[..k])
  {
    assert forall j :: 0 <= j < k ==> ops[..k][..j] == ops[..j];
  }

  lemma {:induction false} PruningSimulates(r: Rules, l: Ledger, ops: seq<Op>)
    requires InjectiveDigest(r) && Consistent(r, l) && QuietRun(r, l, ops)
    ensures Consistent(r, RunFull(r, l, ops)) && Consistent(r, RunCut(r, l, ops))
    ensures Refines(RunFull(r, l, ops), RunCut(r, l, ops))
    decreases |ops|
  {
    if ops == [] {
      RefinesRefl(r, l);
    } else {
      var k := |ops| - 1;
      var full, cut := RunFull(r, l, ops[..k]), RunCut(r, l, ops[..k]);
      QuietPrefix(r, l, ops, k);
      PruningSimulates(r, l, ops[..k]);
      match ops[k]
      case Hear(now, e) =>
        RefinesHear(r, now, full, cut, e);
        AddTxConsistent(r, now, full, e);
        AddTxConsistent(r, now, cut, e);
      case Compact =>
        RefinesPrune(full, cut);
        PruneConsistent(r, cut);
    }
  }

  /** Pruning at arbitrary points of a quiet run is unobservable. */
  lemma PruningUnobservable(r: Rules, l: Ledger, ops: seq<Op>)
    requires InjectiveDigest(r) && Consistent(r, l) && QuietRun(r, l, ops)
    ensures SnapshotOf(RunCut(r, l, ops)) == SnapshotOf(RunFull(r, l, ops))
    ensures forall n :: SameAnswers(RunCut(r, l, ops), RunFull(r, l, ops), n)
  {
    PruningSimulates(r, l, ops);
    RefinesSameSnapshot(RunFull(r, l, ops), RunCut(r, l, ops));
    SameSnapshotSameAnswers(RunCut(r, l, ops), RunFull(r, l, ops));
  }

  /** And all along the run the two ledgers give each envelope the same status, except that the pruned one
      says `stale` where the full one says `known` or rejects the identity. */
  lemma StatusesAgree(r: Rules, l: Ledger, ops: seq<Op>, k: nat)
    requires InjectiveDigest(r) && Consistent(r, l) && QuietRun(r, l, ops) && k < |ops| && ops[k].Hear?
    ensures var full := StatusOf(r, ops[k].now, RunFull(r, l, ops[..k]), ops[k].envelope);
            var cut := StatusOf(r, ops[k].now, RunCut(r, l, ops[..k]), ops[k].envelope);
            cut == full || (cut == Stale && full in {Known, Invalid})
  {
    QuietPrefix(r, l, ops, k);
    PruningSimulates(r, l, ops[..k]);
    RefinesHear(r, ops[k].now, RunFull(r, l, ops[..k]), RunCut(r, l, ops[..k]), ops[k].envelope);
  }
}
