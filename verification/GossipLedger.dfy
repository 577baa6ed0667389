/** The ledger object: tables that its methods change in place, each method proved against the
    meaning given in `LedgerSpec` and the steps in `LedgerSteps`. */
module GossipLedgerClass {
  import opened Basics
  import opened Sums
  import opened Wire
  import opened LedgerSpec
  import opened LedgerSteps
  import opened Pruning

  datatype Identity = Identity(nodeId: NodeId, pubkey: string, powNonce: int, sign: Payload -> string)

  /** The payload that `make_tx` signs. */
  function TxPayload(id: Identity, recipient: NodeId, amount: real, seqNo: int, ts: Decimal): Payload
  {
    Payload("tx", id.nodeId, id.powNonce, Some(recipient), Some(AmountText(amount)), Some(seqNo), Some(ts))
  }

  function Seal(id: Identity, p: Payload): Envelope {
    Signed(p, id.pubkey, id.sign(p))
  }

  // ---------------------------------------------------------------- the counted rows, as SQL lists them

  function CountedRows(all: seq<Row>, rows: seq<Row>): (out: seq<Tx>)
    requires forall row :: row in rows ==> row in all
    ensures forall t :: t in out <==> t in TxSet(rows) && Wins(TxSet(all), t)
  {
    if rows == [] then []
    else
      var rest := CountedRows(all, rows[1..]);
      assert TxSet(rows) == {rows[0].tx} + TxSet(rows[1..]) by {
        assert forall x :: x in rows <==> x == rows[0] || x in rows[1..];
      }
      assert rows[0] in all && rows[0].tx in TxSet(all);
      if forall row :: row in all && SameSlot(rows[0].tx, row.tx) ==> rows[0].tx.id <= row.tx.id
      then assert Wins(TxSet(all), rows[0].tx); InsertById(rows[0].tx, rest)
      else rest
  }

  function InsertById(t: Tx, ts: seq<Tx>): (out: seq<Tx>)
    ensures forall x :: x in out <==> x == t || x in ts
    ensures |out| == |ts| + 1
  {
    if ts == [] || t.id <= ts[0].id then [t] + ts
    else
      assert forall x :: x in ts <==> x == ts[0] || x in ts[1..];
      [ts[0]] + InsertById(t, ts[1..])
  }

  ghost predicate Ascending(ts: seq<Tx>) {
    forall i, j :: 0 <= i < j < |ts| ==> ts[i].id < ts[j].id
  }

  lemma {:induction false} InsertAscending(t: Tx, ts: seq<Tx>)
    requires Ascending(ts) && forall x :: x in ts ==> x.id != t.id
    ensures Ascending(InsertById(t, ts))
  {
    var out := InsertById(t, ts);
    if ts != [] && t.id > ts[0].id {
      InsertAscending(t, ts[1..]);
      var rest := InsertById(t, ts[1..]);
      forall j | 0 <= j < |rest| ensures ts[0].id < rest[j].id {
        assert rest[j] in rest;
        if rest[j] != t {
          var k :| 0 <= k < |ts[1..]| && ts[1..][k] == rest[j];
          assert rest[j] == ts[k + 1];
        }
      }
    }
  }

  lemma {:induction false} CountedAscending(all: seq<Row>, rows: seq<Row>)
    requires forall row :: row in rows ==> row in all
    requires forall i, j :: 0 <= i < j < |rows| ==> rows[i].tx.id != rows[j].tx.id
    ensures Ascending(CountedRows(all, rows))
  {
    if rows != [] {
      CountedAscending(all, rows[1..]);
      forall x | x in CountedRows(all, rows[1..]) ensures x.id != rows[0].tx.id {
        var row :| row in rows[1..] && row.tx == x;
        var k :| 0 <= k < |rows[1..]| && rows[1..][k] == row;
        assert rows[k + 1] == row;
      }
      InsertAscending(rows[0].tx, CountedRows(all, rows[1..]));
    }
  }

  /** One slot of the snapshot loop: `n` as `accounts` has it, or its baseline row. */
  function Slot(accounts: map<NodeId, Account>, base: map<NodeId, Account>, n: NodeId): Account {
    if n in accounts then accounts[n] else BaseRow(base, n)
  }

  function Applied(accounts: map<NodeId, Account>, base: map<NodeId, Account>, t: Tx): map<NodeId, Account>
  {
    var s := Slot(accounts, base, t.sender);
    var debited := accounts[t.sender := s.(balance := s.balance - t.amount, seqNo := Max(s.seqNo, t.seqNo))];
    var c := Slot(debited, base, t.recipient);
    debited[t.recipient := c.(balance := c.balance + t.amount, earned := c.earned + t.amount)]
  }

  function Elements(ts: seq<Tx>): set<Tx> {
    set t | t in ts
  }

  lemma AppliedRow(base: map<NodeId, Account>, done: set<Tx>, t: Tx, n: NodeId)
    requires t !in done
    ensures Folded(base, done + {t}, n) ==
              Account(Folded(base, done, n).balance + Incoming(n)(t) - Outgoing(n)(t),
                      if t.sender == n then Max(Folded(base, done, n).seqNo, t.seqNo) else Folded(base, done, n).seqNo,
                      Folded(base, done, n).earned + Incoming(n)(t))
  {
    SumInsert(done, Incoming(n), t);
    SumInsert(done, Outgoing(n), t);
    var m := TopSeq(done, n, BaseRow(base, n).seqNo);
    TopSeqUnique(done + {t}, n, BaseRow(base, n).seqNo, if t.sender == n then Max(m, t.seqNo) else m);
  }

  lemma AppliedAt(base: map<NodeId, Account>, done: set<Tx>, t: Tx, n: NodeId)
    requires t !in done
    ensures Slot(Applied(FoldAll(base, done), base, t), base, n) == Folded(base, done + {t}, n)
  {
    AppliedRow(base, done, t, n);
    SlotFolded(base, done, n);
    SlotFolded(base, done, t.sender);
    SlotFolded(base, done, t.recipient);
  }

  lemma SlotFolded(base: map<NodeId, Account>, done: set<Tx>, n: NodeId)
    ensures Slot(FoldAll(base, done), base, n) == Folded(base, done, n)
  {
    ReadFolded(base, done, n);
  }

  /** The snapshot loop folds one more counted transfer. */
  lemma AppliedFolds(base: map<NodeId, Account>, done: set<Tx>, t: Tx)
    requires t !in done
    ensures Applied(FoldAll(base, done), base, t) == FoldAll(base, done + {t})
  {
    AppliedKeys(base, done, t);
    var accounts, folded := Applied(FoldAll(base, done), base, t), FoldAll(base, done + {t});
    assert accounts.Keys == folded.Keys;
    forall n | n in accounts ensures accounts[n] == folded[n] {
      AppliedAt(base, done, t, n);
    }
  }

  lemma AppliedKeys(base: map<NodeId, Account>, done: set<Tx>, t: Tx)
    ensures Touched(base, done + {t}) == Touched(base, done) + {t.sender, t.recipient}
  {
  }

  /** The counted transfers among the first `i` rows. */
  function CountedUpTo(rows: seq<Row>, i: nat): set<Tx>
    requires i <= |rows|
  {
    Winners(TxSet(rows)) * TxSet(rows[..i])
  }

  lemma CountedEnds(rows: seq<Row>)
    ensures CountedUpTo(rows, 0) == {} && CountedUpTo(rows, |rows|) == Winners(TxSet(rows))
  {
    assert rows[..|rows|] == rows;
  }

  /** One more row of the table in the sums over the counted transfers. */
  lemma CountedStep(rows: seq<Row>, i: nat, n: NodeId)
    requires i < |rows| && forall j, k :: 0 <= j < k < |rows| ==> rows[j].tx.id != rows[k].tx.id
    ensures var t, done, next := rows[i].tx, CountedUpTo(rows, i), CountedUpTo(rows, i + 1);
            && Sum(next, Incoming(n)) == Sum(done, Incoming(n)) + (if Wins(TxSet(rows), t) then Incoming(n)(t) else 0)
            && Sum(next, Outgoing(n)) == Sum(done, Outgoing(n)) + (if Wins(TxSet(rows), t) then Outgoing(n)(t) else 0)
  {
    var all, t := Winners(TxSet(rows)), rows[i].tx;
    var done, next := CountedUpTo(rows, i), CountedUpTo(rows, i + 1);
    TxSetAppend(rows[..i], rows[i]);
    assert rows[..i + 1] == rows[..i] + [rows[i]];
    assert t in TxSet(rows);
    assert t !in done by {
      assert forall row :: row in rows[..i] ==> row.tx.id != t.id;
    }
    if t in all {
      assert next == done + {t};
      SumInsert(done, Incoming(n), t);
      SumInsert(done, Outgoing(n), t);
    } else {
      assert next == done;
    }
  }

  class GossipLedger {
    const rules: Rules
    var rows: seq<Row>
    var lastRowid: nat
    var base: map<NodeId, Account>
    var flaggedBase: set<NodeId>
    var reserved: map<NodeId, int>

    function State(): Ledger
      reads this
    {
      Ledger(rows, lastRowid, base, flaggedBase, reserved)
    }

    ghost predicate Valid()
      reads this
    {
      Consistent(rules, State())
    }

    constructor (rules: Rules)
      ensures this.rules == rules && State() == EMPTY && Valid()
    {
      this.rules := rules;
      rows, lastRowid, base, flaggedBase, reserved := [], 0, map[], {}, map[];
    }

    method NextSeq(sender: NodeId) returns (next: int)
      ensures next == NextSeqOf(State(), sender)
    {
      var top := Max(0, BaseRow(base, sender).seqNo);
      ghost var floor := top;
      for i := 0 to |rows|
        invariant IsTop(TxSet(rows[..i]), sender, floor, top)
      {
        TxSetAppend(rows[..i], rows[i]);
        assert rows[..i + 1] == rows[..i] + [rows[i]];
        if rows[i].tx.sender == sender {
          top := Max(top, rows[i].tx.seqNo);
        }
      }
      assert rows[..|rows|] == rows;
      TopSeqUnique(Txs(State()), sender, floor, top);
      next := top + 1;
    }

    method ClaimSeq(nodeId: NodeId) returns (claimed: int)
      modifies this
      ensures State() == ReserveSeq(old(State()), nodeId)
      ensures claimed == ClaimedSeq(old(State()), nodeId)
      ensures old(Valid()) ==> Valid()
    {
      var next := NextSeq(nodeId);
      claimed := Max(next - 1, if nodeId in reserved then reserved[nodeId] else 0) + 1;
      reserved := reserved[nodeId := claimed];
    }

    /** Signs a transfer without applying it; the seq is spent whatever becomes of it. */
    method MakeTx(id: Identity, recipient: NodeId, amount: real, now: real) returns (e: Envelope)
      modifies this
      ensures State() == ReserveSeq(old(State()), id.nodeId)
      ensures e == Seal(id, TxPayload(id, recipient, amount, ClaimedSeq(old(State()), id.nodeId), TimeText(now)))
      ensures old(Valid()) ==> Valid()
    {
      var claimed := ClaimSeq(id.nodeId);
      e := Seal(id, TxPayload(id, recipient, amount, claimed, TimeText(now)));
    }

    /** Everything `add_tx` checks before it inserts. */
    method Judge(now: real, e: Envelope) returns (status: Status)
      ensures status == StatusOf(rules, now, State(), e)
    {
      if !Opens(rules, e) || e.payload.kind != "tx" {
        return Invalid;
      }
      if !Transfer(e.payload) || !Timely(e.payload, now) {
        return Invalid;
      }
      if e.payload.seqNo.value <= BaseRow(base, e.payload.sender).seqNo {
        return Stale;
      }
      if !Bound(rules, e) {
        return Invalid;
      }
      var t := TxOf(rules, e.payload);
      if exists row :: row in rows && row.tx.id == t.id {
        return Known;
      }
      var conflict := exists row :: row in rows && SameSlot(row.tx, t);
      return if conflict then Conflict else New;
    }

    method Add(now: real, e: Envelope) returns (status: Status)
      requires Valid()
      modifies this
      ensures status == StatusOf(rules, now, old(State()), e)
      ensures State() == AddTx(rules, now, old(State()), e)
      ensures Valid()
    {
      AddTxConsistent(rules, now, State(), e);
      status := Judge(now, e);
      if status == New || status == Conflict {
        lastRowid := lastRowid + 1;
        rows := rows + [Row(lastRowid, TxOf(rules, e.payload), e)];
      }
    }

    /** What the counted transfers add to and take from one account. */
    method Totals(n: NodeId) returns (incoming: int, outgoing: int)
      requires Valid()
      ensures incoming == Sum(Winners(Txs(State())), Incoming(n))
      ensures outgoing == Sum(Winners(Txs(State())), Outgoing(n))
    {
      incoming, outgoing := 0, 0;
      var table := rows;
      CountedEnds(table);
      for i := 0 to |table|
        invariant incoming == Sum(CountedUpTo(table, i), Incoming(n))
        invariant outgoing == Sum(CountedUpTo(table, i), Outgoing(n))
      {
        CountedStep(table, i, n);
        var t := table[i].tx;
        if Wins(TxSet(table), t) {
          incoming := incoming + Incoming(n)(t);
          outgoing := outgoing + Outgoing(n)(t);
        }
      }
    }

    method Balance(n: NodeId) returns (credits: int)
      requires Valid()
      ensures credits == BalanceOf(State(), n)
    {
      var incoming, outgoing := Totals(n);
      credits := BaseRow(base, n).balance + incoming - outgoing;
    }

    method TotalEarned(n: NodeId) returns (credits: int)
      requires Valid()
      ensures credits == EarnedOf(State(), n)
    {
      var incoming, _ := Totals(n);
      credits := BaseRow(base, n).earned + incoming;
    }

    method IsFlagged(n: NodeId) returns (flagged: bool)
      requires Valid()
      ensures flagged <==> FlaggedIn(State(), n)
    {
      if n in flaggedBase {
        return true;
      }
      var credits := Balance(n);
      return DoubleSpent(TxSet(rows), n) || credits < 0;
    }

    /** The page is the next stretch of the table, as long as the limit allows: after it and all rows
        up to the old cursor come exactly the rows beyond the new one. */
    method TxsAfter(cursor: int, limit: nat) returns (page: seq<Row>, next: int)
      requires Valid()
      ensures page == PageRows(State(), cursor, limit) && next == NextCursor(page, cursor)
      ensures UpTo(rows, cursor) + page == UpTo(rows, next) && cursor <= next
      ensures |page| <= limit && (|page| == limit || UpTo(rows, next) == rows)
    {
      ConsistentOrder(rules, State());
      PageIsNextStretch(rows, cursor, limit);
      PageIsFull(rows, cursor, limit);
      page := FirstAfter(rows, cursor, limit);
      next := NextCursor(page, cursor);
    }

    method TakeSnapshot() returns (snap: Snapshot)
      requires Valid()
      ensures snap == SnapshotOf(State())
    {
      var accounts := base;
      var counted := CountedRows(rows, rows);
      CountedAscending(rows, rows);
      FoldNothing(base);
      assert Elements(counted[..0]) == {};
      for i := 0 to |counted|
        invariant accounts == FoldAll(base, Elements(counted[..i]))
      {
        assert counted[..i + 1] == counted[..i] + [counted[i]];
        assert Elements(counted[..i + 1]) == Elements(counted[..i]) + {counted[i]};
        assert counted[i] !in Elements(counted[..i]);
        AppliedFolds(base, Elements(counted[..i]), counted[i]);
        accounts := Applied(accounts, base, counted[i]);
      }
      assert counted[..|counted|] == counted;
      assert Elements(counted) == Winners(TxSet(rows));
      snap := Snapshot(1, accounts, flaggedBase + DoubleSpenders(TxSet(rows)));
    }

    method AdoptSnapshot(snap: Snapshot) returns (ok: bool)
      requires Valid()
      modifies this
      ensures ok <==> old(rows) == [] && old(base) == map[] && snap.version == 1
      ensures !ok ==> State() == old(State())
      ensures ok ==> rows == [] && base == snap.accounts && flaggedBase == old(flaggedBase) + snap.flagged
      ensures State() == Adopt(old(State()), snap)
      ensures Valid()
    {
      if |rows| > 0 || base != map[] || snap.version != 1 {
        return false;
      }
      base := snap.accounts;
      flaggedBase := flaggedBase + snap.flagged;
      return true;
    }

    method PruneHistory() returns (pruned: nat)
      requires Valid()
      modifies this
      ensures pruned == |old(rows)|
      ensures State() == Prune(old(State())) && SnapshotOf(State()) == SnapshotOf(old(State()))
      ensures Valid()
    {
      PruneKeepsSnapshot(State());
      var snap := TakeSnapshot();
      pruned := |rows|;
      rows, base, flaggedBase := [], snap.accounts, snap.flagged;
    }
  }
}
