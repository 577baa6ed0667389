/** What a ledger means. The table of transfers is a set; of several transfers in one (sender, seq)
    slot only the one with the smallest id counts. Balances, earnings, flags and the snapshot are
    functions of that set and of the baseline, so they cannot depend on arrival order. */
module LedgerSpec {
  import opened Basics
  import opened Sums
  import opened Wire

  const GENESIS: int := 100_000_000

  datatype Tx = Tx(id: nat, sender: NodeId, seqNo: int, recipient: NodeId, amount: int)

  datatype Row = Row(rowid: nat, tx: Tx, envelope: Envelope)

  datatype Account = Account(balance: int, seqNo: int, earned: int)

  datatype Ledger = Ledger(rows: seq<Row>, lastRowid: nat, base: map<NodeId, Account>,
                           flagged: set<NodeId>, reserved: map<NodeId, int>)

  datatype Snapshot = Snapshot(version: int, accounts: map<NodeId, Account>, flagged: set<NodeId>)

  const EMPTY := Ledger([], 0, map[], {}, map[])

  function TxOf(r: Rules, p: Payload): Tx
    requires Transfer(p)
  {
    Tx(r.digest(p), p.sender, p.seqNo.value, p.recipient.value, Micro(Value(p.amount.value)))
  }

  function TxSet(rows: seq<Row>): set<Tx> {
    set row | row in rows :: row.tx
  }

  function Txs(l: Ledger): set<Tx> {
    TxSet(l.rows)
  }

  function BaseRow(base: map<NodeId, Account>, n: NodeId): Account {
    if n in base then base[n] else Account(GENESIS, 0, 0)
  }

  predicate SameSlot(t: Tx, u: Tx) {
    t.sender == u.sender && t.seqNo == u.seqNo
  }

  predicate Wins(s: set<Tx>, t: Tx) {
    t in s && forall u :: u in s && SameSlot(t, u) ==> t.id <= u.id
  }

  function Winners(s: set<Tx>): set<Tx> {
    set t | t in s && Wins(s, t)
  }

  function Incoming(n: NodeId): Tx -> int {
    (t: Tx) => if t.recipient == n then t.amount else 0
  }

  function Outgoing(n: NodeId): Tx -> int {
    (t: Tx) => if t.sender == n then t.amount else 0
  }

  ghost function BalanceOf(l: Ledger, n: NodeId): int {
    BaseRow(l.base, n).balance + Sum(Winners(Txs(l)), Incoming(n)) - Sum(Winners(Txs(l)), Outgoing(n))
  }

  ghost function EarnedOf(l: Ledger, n: NodeId): int {
    BaseRow(l.base, n).earned + Sum(Winners(Txs(l)), Incoming(n))
  }

  predicate DoubleSpent(s: set<Tx>, n: NodeId) {
    exists t, u :: t in s && u in s && t != u && SameSlot(t, u) && t.sender == n
  }

  function Senders(s: set<Tx>): set<NodeId> {
    set t | t in s :: t.sender
  }

  function DoubleSpenders(s: set<Tx>): set<NodeId> {
    set n | n in Senders(s) && DoubleSpent(s, n)
  }

  /** Every node starts with a hundred credits, nothing earned and its first seq ahead. */
  lemma Newcomer(l: Ledger, n: NodeId)
    requires n !in l.base && forall t :: t in Txs(l) ==> t.sender != n && t.recipient != n
    ensures BalanceOf(l, n) == 100_000_000 && EarnedOf(l, n) == 0 && NextSeqOf(l, n) == 1
    ensures FlaggedIn(l, n) <==> n in l.flagged
  {
    NothingFor(Winners(Txs(l)), n);
  }

  lemma {:induction false} NothingFor(s: set<Tx>, n: NodeId)
    requires forall t :: t in s ==> t.sender != n && t.recipient != n
    ensures Sum(s, Incoming(n)) == 0 == Sum(s, Outgoing(n))
    decreases |s|
  {
    if s != {} {
      var t :| t in s;
      SumPick(s, Incoming(n), t);
      SumPick(s, Outgoing(n), t);
      NothingFor(s - {t}, n);
    }
  }

  ghost predicate FlaggedIn(l: Ledger, n: NodeId) {
    n in l.flagged || DoubleSpent(Txs(l), n) || BalanceOf(l, n) < 0
  }

  /** `m` is the largest of `floor` and the seqs that `n` uses in `s`. */
  ghost predicate IsTop(s: set<Tx>, n: NodeId, floor: int, m: int)
  {
    && floor <= m
    && (forall t :: t in s && t.sender == n ==> t.seqNo <= m)
    && (m == floor || exists t :: t in s && t.sender == n && t.seqNo == m)
  }

  ghost function TopSeq(s: set<Tx>, n: NodeId, floor: int): (m: int)
    ensures IsTop(s, n, floor, m)
    decreases |s|
  {
    if s == {} then floor
    else
      var x :| x in s;
      var rest := TopSeq(s - {x}, n, floor);
      if x.sender == n && x.seqNo > rest then x.seqNo else rest
  }

  ghost function NextSeqOf(l: Ledger, n: NodeId): int {
    TopSeq(Txs(l), n, Max(0, BaseRow(l.base, n).seqNo)) + 1
  }

  function Parties(s: set<Tx>): set<NodeId> {
    Senders(s) + set t | t in s :: t.recipient
  }

  function AccountsOf(l: Ledger): set<NodeId> {
    Touched(l.base, Winners(Txs(l)))
  }

  function Touched(base: map<NodeId, Account>, w: set<Tx>): set<NodeId> {
    base.Keys + Parties(w)
  }

  /** One account after the counted transfers `w` are folded into a baseline. */
  ghost function Folded(base: map<NodeId, Account>, w: set<Tx>, n: NodeId): Account {
    Account(BaseRow(base, n).balance + Sum(w, Incoming(n)) - Sum(w, Outgoing(n)),
            TopSeq(w, n, BaseRow(base, n).seqNo),
            BaseRow(base, n).earned + Sum(w, Incoming(n)))
  }

  ghost function FoldAll(base: map<NodeId, Account>, w: set<Tx>): map<NodeId, Account> {
    map n | n in Touched(base, w) :: Folded(base, w, n)
  }

  ghost function SnapshotOf(l: Ledger): Snapshot {
    Snapshot(1, FoldAll(l.base, Winners(Txs(l))), l.flagged + DoubleSpenders(Txs(l)))
  }

  /** The four questions a peer asks about an account. */
  ghost predicate SameAnswers(a: Ledger, b: Ledger, n: NodeId)
  {
    && BalanceOf(a, n) == BalanceOf(b, n)
    && EarnedOf(a, n) == EarnedOf(b, n)
    && NextSeqOf(a, n) == NextSeqOf(b, n)
    && (FlaggedIn(a, n) <==> FlaggedIn(b, n))
  }

  // ---------------------------------------------------------------- the stored table

  ghost predicate UniqueIds(s: set<Tx>) {
    forall t, u :: t in s && u in s && t.id == u.id ==> t == u
  }

  /** What `add_tx`, `prune` and `adopt_snapshot` keep: rowids grow, ids are unique, every row was
      built from a genuine envelope and lies above its sender's watermark. */
  ghost predicate Consistent(r: Rules, l: Ledger)
  {
    && (forall i, j :: 0 <= i < j < |l.rows| ==> l.rows[i].rowid < l.rows[j].rowid)
    && (forall i :: 0 <= i < |l.rows| ==> 1 <= l.rows[i].rowid <= l.lastRowid)
    && (forall i, j :: 0 <= i < j < |l.rows| ==> l.rows[i].tx.id != l.rows[j].tx.id)
    && (forall row :: row in l.rows ==> Genuine(r, row.envelope) && row.tx == TxOf(r, row.envelope.payload))
    && (forall row :: row in l.rows ==> row.tx.seqNo > BaseRow(l.base, row.tx.sender).seqNo)
  }

  lemma ConsistentTxs(r: Rules, l: Ledger)
    requires Consistent(r, l)
    ensures UniqueIds(Txs(l))
    ensures forall t :: t in Txs(l) ==>
              t.amount >= 0 && t.seqNo >= 1 && t.sender != t.recipient && t.seqNo > BaseRow(l.base, t.sender).seqNo
  {
    forall t, u | t in Txs(l) && u in Txs(l) && t.id == u.id
      ensures t == u
    {
      var i :| 0 <= i < |l.rows| && l.rows[i].tx == t;
      var j :| 0 <= j < |l.rows| && l.rows[j].tx == u;
      assert i == j;
    }
  }

  // ---------------------------------------------------------------- winners

  /** Every stored transfer has a winner in its slot. */
  lemma {:induction false} SlotWinner(s: set<Tx>, t: Tx) returns (w: Tx)
    requires t in s
    ensures w in Winners(s) && SameSlot(t, w)
    decreases t.id
  {
    if Wins(s, t) {
      w := t;
    } else {
      var u :| u in s && SameSlot(t, u) && u.id < t.id;
      w := SlotWinner(s, u);
    }
  }

  lemma WinnersFreshSlot(s: set<Tx>, t: Tx)
    requires forall u :: u in s ==> !SameSlot(t, u)
    ensures Winners(s + {t}) == Winners(s) + {t}
  {
  }

  /** What one counted transfer does to one account. */
  function Moves(t: Tx, n: NodeId): int {
    Incoming(n)(t) - Outgoing(n)(t)
  }

  /** A transfer stored into a free slot moves its amount and nothing else. */
  lemma FreshSlotMoves(before: Ledger, after: Ledger, t: Tx, n: NodeId)
    requires after.base == before.base && Txs(after) == Txs(before) + {t}
    requires forall u :: u in Txs(before) ==> !SameSlot(t, u)
    ensures BalanceOf(after, n) == BalanceOf(before, n) + Moves(t, n)
    ensures EarnedOf(after, n) == EarnedOf(before, n) + Incoming(n)(t)
  {
    var w := Winners(Txs(before));
    WinnersFreshSlot(Txs(before), t);
    assert t !in w by {
      assert SameSlot(t, t);
    }
    SumInsert(w, Incoming(n), t);
    SumInsert(w, Outgoing(n), t);
  }

  /** A later transfer in an occupied slot counts exactly when its id is smaller. */
  lemma WinnersTakenSlot(s: set<Tx>, t: Tx, w: Tx)
    requires UniqueIds(s + {t}) && t !in s
    requires w in Winners(s) && SameSlot(t, w)
    ensures Winners(s + {t}) == if t.id < w.id then Winners(s) - {w} + {t} else Winners(s)
  {
    forall v | v in Winners(s) && SameSlot(v, t)
      ensures v == w
    {
      assert v.id <= w.id && w.id <= v.id;
    }
    if t.id < w.id {
      assert Winners(s + {t}) == Winners(s) - {w} + {t};
    } else {
      assert t.id != w.id;
      assert Winners(s + {t}) == Winners(s);
    }
  }

  /** The largest seq of an account is the same over the winners as over all stored transfers. */
  lemma TopSeqOfWinners(s: set<Tx>, n: NodeId, floor: int)
    ensures TopSeq(Winners(s), n, floor) == TopSeq(s, n, floor)
  {
    var m := TopSeq(s, n, floor);
    if m != floor {
      var t :| t in s && t.sender == n && t.seqNo == m;
      var w := SlotWinner(s, t);
    }
    assert IsTop(Winners(s), n, floor, m);
  }

  lemma TopSeqUnique(s: set<Tx>, n: NodeId, floor: int, m: int)
    requires IsTop(s, n, floor, m)
    ensures TopSeq(s, n, floor) == m
  {
  }
}
