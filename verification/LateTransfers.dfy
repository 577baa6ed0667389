/** The one way pruning shows: a transfer at or below the watermark that was never stored. The full
    ledger would store it, the pruned one calls it stale. This file says exactly when the two can
    still not be told apart, and gives an input on which they can. */
module LateTransfers {
  import opened Basics
  import opened Sums
  import opened Wire
  import opened LedgerSpec
  import opened LedgerSteps
  import opened Pruning

  /** `after` is `before` with the unseen transfer `t`, whose seq is nothing new for its sender. */
  ghost predicate LateArrival(before: Ledger, after: Ledger, t: Tx)
  {
    && after.base == before.base && after.flagged == before.flagged
    && Txs(after) == Txs(before) + {t} && t !in Txs(before) && UniqueIds(Txs(after))
    && t.sender != t.recipient
    && t.seqNo <= TopSeq(Txs(before), t.sender, BaseRow(before.base, t.sender).seqNo)
  }

  ghost predicate FreeSlot(l: Ledger, t: Tx) {
    forall u :: u in Txs(l) ==> !SameSlot(t, u)
  }

  /** Nobody can tell that `t` was dropped: it moves nothing, or it loses its slot to an already
      flagged sender's transfer, or it would replace one with the same effect. */
  ghost predicate Neutral(l: Ledger, t: Tx)
  {
    if FreeSlot(l, t) then t.amount == 0
    else
      && FlaggedIn(l, t.sender)
      && forall w :: w in Winners(Txs(l)) && SameSlot(t, w) ==>
           w.id < t.id || (t.amount == w.amount && (t.amount == 0 || t.recipient == w.recipient))
  }

  lemma FreeSlotSums(before: Ledger, after: Ledger, t: Tx, n: NodeId)
    requires LateArrival(before, after, t) && FreeSlot(before, t)
    ensures BalanceOf(after, n) == BalanceOf(before, n) + Moves(t, n)
    ensures EarnedOf(after, n) == EarnedOf(before, n) + Incoming(n)(t)
  {
    FreshSlotMoves(before, after, t, n);
  }

  lemma TakenSlotSums(before: Ledger, after: Ledger, t: Tx, w: Tx, n: NodeId)
    requires LateArrival(before, after, t) && w in Winners(Txs(before)) && SameSlot(t, w)
    ensures BalanceOf(after, n) == BalanceOf(before, n) + if t.id < w.id then Moves(t, n) - Moves(w, n) else 0
    ensures EarnedOf(after, n) == EarnedOf(before, n) + if t.id < w.id then Incoming(n)(t) - Incoming(n)(w) else 0
  {
    var ws := Winners(Txs(before));
    WinnersTakenSlot(Txs(before), t, w);
    if t.id < w.id {
      SumPick(ws, Incoming(n), w);
      SumPick(ws, Outgoing(n), w);
      SumInsert(ws - {w}, Incoming(n), t);
      SumInsert(ws - {w}, Outgoing(n), t);
    }
  }

  lemma LateNextSeq(before: Ledger, after: Ledger, t: Tx, n: NodeId)
    requires LateArrival(before, after, t)
    ensures NextSeqOf(after, n) == NextSeqOf(before, n)
  {
    var floor := Max(0, BaseRow(before.base, n).seqNo);
    TopSeqUnique(Txs(after), n, floor, TopSeq(Txs(before), n, floor));
  }

  lemma LateDoubleSpend(before: Ledger, after: Ledger, t: Tx, n: NodeId)
    requires LateArrival(before, after, t)
    ensures DoubleSpent(Txs(after), n) <==> DoubleSpent(Txs(before), n) || (n == t.sender && !FreeSlot(before, t))
  {
    if n == t.sender && !FreeSlot(before, t) {
      var u :| u in Txs(before) && SameSlot(t, u);
      assert t in Txs(after) && u in Txs(after) && t != u;
    }
    if DoubleSpent(Txs(after), n) && !DoubleSpent(Txs(before), n) {
      var x, y :| x in Txs(after) && y in Txs(after) && x != y && SameSlot(x, y) && x.sender == n;
      assert SameSlot(y, x);
    }
    if DoubleSpent(Txs(before), n) {
      var x, y :| x in Txs(before) && y in Txs(before) && x != y && SameSlot(x, y) && x.sender == n;
      assert x in Txs(after) && y in Txs(after);
    }
  }

  lemma NeutralIsUnseen(before: Ledger, after: Ledger, t: Tx, n: NodeId)
    requires LateArrival(before, after, t) && Neutral(before, t)
    ensures SameAnswers(after, before, n)
  {
    LateNextSeq(before, after, t, n);
    LateDoubleSpend(before, after, t, n);
    if FreeSlot(before, t) {
      FreeSlotSums(before, after, t, n);
    } else {
      TakenNeutral(before, after, t, n);
    }
  }

  lemma TakenNeutral(before: Ledger, after: Ledger, t: Tx, n: NodeId)
    requires LateArrival(before, after, t) && Neutral(before, t) && !FreeSlot(before, t)
    ensures BalanceOf(after, n) == BalanceOf(before, n) && EarnedOf(after, n) == EarnedOf(before, n)
  {
    var w := SlotOwner(before, t);
    TakenSlotSums(before, after, t, w, n);
    assert w.id < t.id || (t.amount == w.amount && (t.amount == 0 || t.recipient == w.recipient));
    SameEffect(t, w, n);
  }

  lemma SameEffect(t: Tx, w: Tx, n: NodeId)
    requires SameSlot(t, w)
    ensures t.amount == w.amount && (t.amount == 0 || t.recipient == w.recipient) ==>
              Moves(t, n) == Moves(w, n) && Incoming(n)(t) == Incoming(n)(w)
  {
  }

  lemma SlotOwner(l: Ledger, t: Tx) returns (w: Tx)
    requires !FreeSlot(l, t)
    ensures w in Winners(Txs(l)) && SameSlot(t, w)
  {
    var u :| u in Txs(l) && SameSlot(t, u);
    w := SlotWinner(Txs(l), u);
  }

  lemma SeenUnlessNeutral(before: Ledger, after: Ledger, t: Tx)
    requires LateArrival(before, after, t) && !Neutral(before, t)
    ensures exists n :: !SameAnswers(after, before, n)
  {
    LateDoubleSpend(before, after, t, t.sender);
    if FreeSlot(before, t) {
      FreeSlotSums(before, after, t, t.sender);
      assert !SameAnswers(after, before, t.sender);
    } else if !FlaggedIn(before, t.sender) {
      assert !SameAnswers(after, before, t.sender);
    } else {
      var w :| w in Winners(Txs(before)) && SameSlot(t, w) && !(w.id < t.id)
               && !(t.amount == w.amount && (t.amount == 0 || t.recipient == w.recipient));
      DisplacementSeen(before, after, t, w);
    }
  }

  /** Displacing a counted transfer of another amount, or to someone else, shows at a recipient. */
  lemma DisplacementSeen(before: Ledger, after: Ledger, t: Tx, w: Tx)
    requires LateArrival(before, after, t) && w in Winners(Txs(before)) && SameSlot(t, w) && !(w.id < t.id)
    requires !(t.amount == w.amount && (t.amount == 0 || t.recipient == w.recipient))
    ensures !SameAnswers(after, before, t.recipient) || !SameAnswers(after, before, w.recipient)
  {
    assert w.id != t.id;
    TakenSlotSums(before, after, t, w, t.recipient);
    TakenSlotSums(before, after, t, w, w.recipient);
    IncomingDiffers(t, w);
    assert EarnedOf(after, t.recipient) != EarnedOf(before, t.recipient)
        || EarnedOf(after, w.recipient) != EarnedOf(before, w.recipient);
  }

  lemma IncomingDiffers(t: Tx, w: Tx)
    requires !(t.amount == w.amount && (t.amount == 0 || t.recipient == w.recipient))
    ensures Incoming(t.recipient)(t) != Incoming(t.recipient)(w) || Incoming(w.recipient)(t) != Incoming(w.recipient)(w)
  {
  }

  /** Which envelopes a pruned ledger handles as if it had never been pruned: every one that fails
      the checks, is already stored, or lies above the watermark, and of the others only those that
      are neutral. */
  lemma PruningUnobservableExactly(r: Rules, now: real, full: Ledger, cut: Ledger, e: Envelope)
    requires InjectiveDigest(r) && Consistent(r, full) && Consistent(r, cut) && Refines(full, cut)
    ensures (forall n :: SameAnswers(AddTx(r, now, full, e), AddTx(r, now, cut, e), n)) <==>
              (Unnoticed(r, now, full, cut, e) || Neutral(full, TxOf(r, e.payload)))
  {
    if Unnoticed(r, now, full, cut, e) {
      RefinesHear(r, now, full, cut, e);
      RefinesSameSnapshot(AddTx(r, now, full, e), AddTx(r, now, cut, e));
      SameSnapshotSameAnswers(AddTx(r, now, full, e), AddTx(r, now, cut, e));
    } else {
      LateHearing(r, now, full, cut, e);
      LateExactly(full, cut, AddTx(r, now, full, e), TxOf(r, e.payload));
    }
  }

  lemma LateExactly(full: Ledger, cut: Ledger, full': Ledger, t: Tx)
    requires Refines(full, cut) && LateArrival(full, full', t)
    ensures (forall n :: SameAnswers(full', cut, n)) <==> Neutral(full, t)
  {
    RefinesSameSnapshot(full, cut);
    SameSnapshotSameAnswers(full, cut);
    if Neutral(full, t) {
      forall n ensures SameAnswers(full', cut, n) {
        NeutralIsUnseen(full, full', t, n);
        assert SameAnswers(full, cut, n);
      }
    } else {
      SeenUnlessNeutral(full, full', t);
      var n :| !SameAnswers(full', full, n);
      assert SameAnswers(full, cut, n);
      assert !SameAnswers(full', cut, n);
    }
  }

  lemma LateHearing(r: Rules, now: real, full: Ledger, cut: Ledger, e: Envelope)
    requires InjectiveDigest(r) && Consistent(r, full) && Consistent(r, cut) && Refines(full, cut)
    requires !Unnoticed(r, now, full, cut, e)
    ensures AddTx(r, now, cut, e) == cut
    ensures LateArrival(full, AddTx(r, now, full, e), TxOf(r, e.payload))
  {
    var t := TxOf(r, e.payload);
    AddTxEffect(r, now, full, e);
    AddTxEffect(r, now, cut, e);
    AddTxConsistent(r, now, full, e);
    ConsistentTxs(r, AddTx(r, now, full, e));
    SnapshotTop(full, cut, t.sender);
  }

  lemma SnapshotTop(full: Ledger, cut: Ledger, n: NodeId)
    requires Refines(full, cut)
    ensures BaseRow(cut.base, n).seqNo <= TopSeq(Txs(full), n, BaseRow(full.base, n).seqNo)
  {
    ReadFolded(full.base, Winners(Low(full, cut)), n);
    TopSeqOfWinners(Low(full, cut), n, BaseRow(full.base, n).seqNo);
  }

  /** The failure is real: seq 2 arrives, the ledger prunes, then seq 1 arrives and is lost. */
  lemma LateTransferShows(r: Rules, bob: NodeId, first: Envelope, second: Envelope)
    requires InjectiveDigest(r) && Valid(r, 0.0, first) && Valid(r, 0.0, second)
    requires first.payload.sender == second.payload.sender && first.payload.recipient == Some(bob)
    requires first.payload.seqNo == Some(1) && second.payload.seqNo == Some(2)
    requires first.payload.amount.Some? && Value(first.payload.amount.value) == 1.0
    ensures var full := AddTx(r, 0.0, EMPTY, second);
            BalanceOf(AddTx(r, 0.0, full, first), bob) == BalanceOf(AddTx(r, 0.0, Prune(full), first), bob) + 1_000_000
  {
    var full := AddTx(r, 0.0, EMPTY, second);
    var t2, t1 := TxOf(r, second.payload), TxOf(r, first.payload);
    OneStored(r, second);
    RefinesPrune(full, full);
    SnapshotSeqCovers(full, t2);
    LateHearing(r, 0.0, full, Prune(full), first);
    FreeSlotSums(full, AddTx(r, 0.0, full, first), t1, bob);
    PruneKeepsSnapshot(full);
    SameSnapshotSameAnswers(full, Prune(full));
    assert SameAnswers(full, Prune(full), bob);
  }

  lemma OneStored(r: Rules, e: Envelope)
    requires InjectiveDigest(r) && Valid(r, 0.0, e)
    ensures var l := AddTx(r, 0.0, EMPTY, e);
            && Consistent(r, l) && Consistent(r, Prune(l)) && Refines(l, l)
            && Txs(l) == {TxOf(r, e.payload)} && l.base == map[]
  {
    AddTxConsistent(r, 0.0, EMPTY, e);
    AddTxEffect(r, 0.0, EMPTY, e);
    RefinesRefl(r, AddTx(r, 0.0, EMPTY, e));
    PruneConsistent(r, AddTx(r, 0.0, EMPTY, e));
  }
}
