/** The ledger's state changes as functions on values, and what each keeps. */
module LedgerSteps {
  import opened Basics
  import opened Sums
  import opened Wire
  import opened LedgerSpec

  datatype Status = New | Known | Conflict | Stale | Invalid

  function StatusOf(r: Rules, now: real, l: Ledger, e: Envelope): Status
  {
    if !WellFormed(r, now, e) then Invalid
    else if e.payload.seqNo.value <= BaseRow(l.base, e.payload.sender).seqNo then Stale
    else if !Bound(r, e) then Invalid
    else
      var t := TxOf(r, e.payload);
      if exists row :: row in l.rows && row.tx.id == t.id then Known
      else if exists row :: row in l.rows && SameSlot(row.tx, t) then Conflict
      else New
  }

  function AddTx(r: Rules, now: real, l: Ledger, e: Envelope): Ledger
  {
    var status := StatusOf(r, now, l, e);
    if status == New || status == Conflict then
      l.(rows := l.rows + [Row(l.lastRowid + 1, TxOf(r, e.payload), e)], lastRowid := l.lastRowid + 1)
    else l
  }

  ghost function ClaimedSeq(l: Ledger, n: NodeId): int
  {
    Max(NextSeqOf(l, n) - 1, if n in l.reserved then l.reserved[n] else 0) + 1
  }

  ghost function ReserveSeq(l: Ledger, n: NodeId): Ledger
  {
    l.(reserved := l.reserved[n := ClaimedSeq(l, n)])
  }

  ghost function Prune(l: Ledger): Ledger
  {
    var snap := SnapshotOf(l);
    l.(rows := [], base := snap.accounts, flagged := snap.flagged)
  }

  predicate CanAdopt(l: Ledger, snap: Snapshot) {
    l.rows == [] && l.base == map[] && snap.version == 1
  }

  /** `flagged_base` is filled with INSERT OR IGNORE, so flags already there stay. */
  function Adopt(l: Ledger, snap: Snapshot): Ledger
  {
    if CanAdopt(l, snap) then l.(base := snap.accounts, flagged := l.flagged + snap.flagged) else l
  }

  function PageRows(l: Ledger, cursor: int, limit: nat): seq<Row>
  {
    FirstAfter(l.rows, cursor, limit)
  }

  /** `WHERE rowid > cursor ORDER BY rowid LIMIT limit` over a table kept in rowid order. */
  function FirstAfter(rows: seq<Row>, cursor: int, limit: nat): seq<Row>
  {
    if rows == [] || limit == 0 then []
    else if rows[0].rowid > cursor then [rows[0]] + FirstAfter(rows[1..], cursor, limit - 1)
    else FirstAfter(rows[1..], cursor, limit)
  }

  function NextCursor(page: seq<Row>, cursor: int): int
  {
    if page == [] then cursor else page[|page| - 1].rowid
  }

  // ---------------------------------------------------------------- what the steps keep

  /** Adopting takes effect only on a ledger without transfers and without a baseline. */
  lemma AdoptExactly(l: Ledger, snap: Snapshot)
    ensures if l.rows == [] && l.base == map[] && snap.version == 1
            then Adopt(l, snap) == Ledger([], l.lastRowid, snap.accounts, l.flagged + snap.flagged, l.reserved)
            else Adopt(l, snap) == l
  {
  }

  predicate Stored(s: Status) {
    s == New || s == Conflict
  }

  lemma TxSetAppend(rows: seq<Row>, row: Row)
    ensures TxSet(rows + [row]) == TxSet(rows) + {row.tx}
  {
    assert forall x :: x in rows + [row] <==> x in rows || x == row;
  }

  lemma KnownIsStored(r: Rules, l: Ledger, e: Envelope)
    requires InjectiveDigest(r) && Consistent(r, l) && e.Signed? && Transfer(e.payload)
    requires exists row :: row in l.rows && row.tx.id == r.digest(e.payload)
    ensures TxOf(r, e.payload) in Txs(l)
  {
    var row :| row in l.rows && row.tx.id == r.digest(e.payload);
    assert row.envelope.payload == e.payload;
    assert row.tx == TxOf(r, e.payload);
  }

  /** Whatever arrives, the table stays consistent. */
  lemma AddTxConsistent(r: Rules, now: real, l: Ledger, e: Envelope)
    requires Consistent(r, l)
    ensures Consistent(r, AddTx(r, now, l, e))
  {
    if Stored(StatusOf(r, now, l, e)) {
      var row := Row(l.lastRowid + 1, TxOf(r, e.payload), e);
      var l' := AddTx(r, now, l, e);
      assert l'.rows == l.rows + [row] && l'.base == l.base;
      forall i, j | 0 <= i < j < |l'.rows|
        ensures l'.rows[i].tx.id != l'.rows[j].tx.id && l'.rows[i].rowid < l'.rows[j].rowid
      {
        assert l'.rows[i] == l.rows[i];
        if j == |l.rows| {
          assert l'.rows[j] == row && l.rows[i] in l.rows;
        }
      }
      forall x | x in l'.rows
        ensures Genuine(r, x.envelope) && x.tx == TxOf(r, x.envelope.payload)
        ensures x.tx.seqNo > BaseRow(l'.base, x.tx.sender).seqNo
      {
        assert BaseRow(l'.base, x.tx.sender) == BaseRow(l.base, x.tx.sender);
        assert x in l.rows || x == row;
      }
    }
  }

  /** A valid envelope above the watermark is stored afterwards, any other leaves the ledger alone. */
  lemma AddTxEffect(r: Rules, now: real, l: Ledger, e: Envelope)
    requires InjectiveDigest(r) && Consistent(r, l)
    ensures AddTx(r, now, l, e).base == l.base && AddTx(r, now, l, e).flagged == l.flagged
    ensures AddTx(r, now, l, e).reserved == l.reserved
    ensures if Valid(r, now, e) && e.payload.seqNo.value > BaseRow(l.base, e.payload.sender).seqNo
            then Txs(AddTx(r, now, l, e)) == Txs(l) + {TxOf(r, e.payload)}
            else AddTx(r, now, l, e) == l
  {
    match StatusOf(r, now, l, e)
    case New => TxSetAppend(l.rows, Row(l.lastRowid + 1, TxOf(r, e.payload), e));
    case Conflict => TxSetAppend(l.rows, Row(l.lastRowid + 1, TxOf(r, e.payload), e));
    case Known => KnownIsStored(r, l, e);
    case _ =>
  }

  /** An envelope passes the first checks exactly if its key signed a transfer of a positive amount to
      somebody else's full id, with a positive seq and a time at most five minutes ahead. */
  lemma WellFormedExactly(r: Rules, now: real, e: Envelope)
    ensures WellFormed(r, now, e) <==>
              && e.Signed? && r.verify(e.pubkey, e.payload, e.sig) && e.payload.kind == "tx"
              && e.payload.amount.Some? && Value(e.payload.amount.value) > 0.0
              && e.payload.seqNo.Some? && e.payload.seqNo.value >= 1
              && e.payload.recipient.Some? && |e.payload.recipient.value.hex| == 64
              && e.payload.recipient.value != e.payload.sender
              && e.payload.ts.Some? && Value(e.payload.ts.value) <= now + 300.0
  {
  }

  /** What is refused and what is stale: a transfer at or below the watermark is stale whoever signed it,
      one above it is refused exactly if the sender's id is not bound to the key. */
  lemma StatusElsewhere(r: Rules, now: real, l: Ledger, e: Envelope)
    ensures StatusOf(r, now, l, e) == Stale <==>
              WellFormed(r, now, e) && e.payload.seqNo.value <= BaseRow(l.base, e.payload.sender).seqNo
    ensures StatusOf(r, now, l, e) == Invalid <==>
              !WellFormed(r, now, e) || (e.payload.seqNo.value > BaseRow(l.base, e.payload.sender).seqNo
                                         && !r.bound(e.payload.sender, e.pubkey, e.payload.powNonce))
  {
  }

  /** The status tells exactly what the set of stored transfers already held. */
  lemma StatusMeaning(r: Rules, now: real, l: Ledger, e: Envelope)
    requires InjectiveDigest(r) && Consistent(r, l)
    requires Valid(r, now, e) && e.payload.seqNo.value > BaseRow(l.base, e.payload.sender).seqNo
    ensures var t := TxOf(r, e.payload);
            StatusOf(r, now, l, e) ==
              if t in Txs(l) then Known
              else if exists u :: u in Txs(l) && SameSlot(u, t) then Conflict else New
  {
    var t := TxOf(r, e.payload);
    if exists row :: row in l.rows && row.tx.id == t.id {
      KnownIsStored(r, l, e);
    } else if exists u :: u in Txs(l) && SameSlot(u, t) {
      var u :| u in Txs(l) && SameSlot(u, t);
      var row :| row in l.rows && row.tx == u;
      assert SameSlot(row.tx, t);
    } else {
      forall row | row in l.rows ensures !SameSlot(row.tx, t) {
        assert row.tx in Txs(l);
      }
    }
  }

  // ---------------------------------------------------------------- pages

  /** The rows at or below a cursor. */
  function UpTo(rows: seq<Row>, cursor: int): seq<Row>
  {
    if rows == [] then []
    else if rows[0].rowid <= cursor then [rows[0]] + UpTo(rows[1..], cursor)
    else []
  }

  ghost predicate RowOrder(rows: seq<Row>) {
    forall i, j :: 0 <= i < j < |rows| ==> rows[i].rowid < rows[j].rowid
  }

  /** A page is the next stretch of the table: what lies up to the old cursor, then the page, is
      exactly what lies up to the new cursor. */
  lemma {:induction false} PageIsNextStretch(rows: seq<Row>, cursor: int, limit: nat)
    requires RowOrder(rows)
    ensures var page := FirstAfter(rows, cursor, limit);
            UpTo(rows, cursor) + page == UpTo(rows, NextCursor(page, cursor)) && cursor <= NextCursor(page, cursor)
    decreases |rows|, limit
  {
    if rows != [] && limit > 0 {
      TailOrder(rows);
      if rows[0].rowid > cursor {
        PageIsNextStretch(rows[1..], cursor, limit - 1);
        StretchFromHere(rows, cursor, limit);
      } else {
        PageIsNextStretch(rows[1..], cursor, limit);
        var same := FirstAfter(rows[1..], cursor, limit);
        assert UpTo(rows, cursor) + same == [rows[0]] + (UpTo(rows[1..], cursor) + same);
      }
    }
  }

  lemma TailOrder(rows: seq<Row>)
    requires RowOrder(rows) && rows != []
    ensures RowOrder(rows[1..]) && (|rows| > 1 ==> rows[0].rowid < rows[1..][0].rowid)
  {
  }

  /** The page starts with the first row. */
  lemma StretchFromHere(rows: seq<Row>, cursor: int, limit: nat)
    requires RowOrder(rows) && rows != [] && limit > 0 && rows[0].rowid > cursor
    requires var rest := FirstAfter(rows[1..], cursor, limit - 1);
             UpTo(rows[1..], cursor) + rest == UpTo(rows[1..], NextCursor(rest, cursor)) && cursor <= NextCursor(rest, cursor)
    ensures var page := FirstAfter(rows, cursor, limit);
            UpTo(rows, cursor) + page == UpTo(rows, NextCursor(page, cursor)) && cursor <= NextCursor(page, cursor)
  {
    var rest := FirstAfter(rows[1..], cursor, limit - 1);
    var page := [rows[0]] + rest;
    TailOrder(rows);
    AllAfter(rows[1..], cursor);
    if rest == [] {
      AllAfter(rows[1..], rows[0].rowid);
    } else {
      PageRowsAreRows(rows[1..], cursor, limit - 1);
      assert rest[|rest| - 1] in rows[1..];
      assert page[|page| - 1] == rest[|rest| - 1];
    }
  }

  lemma AllAfter(rows: seq<Row>, cursor: int)
    requires rows != [] ==> rows[0].rowid > cursor
    ensures UpTo(rows, cursor) == []
  {
  }

  lemma {:induction false} UpToIsPrefix(rows: seq<Row>, cursor: int)
    requires RowOrder(rows)
    ensures UpTo(rows, cursor) <= rows
    ensures forall row :: row in rows && row.rowid <= cursor ==> row in UpTo(rows, cursor)
    ensures forall row :: row in UpTo(rows, cursor) ==> row.rowid <= cursor
  {
    if rows != [] {
      UpToIsPrefix(rows[1..], cursor);
      assert forall row :: row in rows <==> row == rows[0] || row in rows[1..];
    }
  }

  /** A page shorter than the limit reaches the end of the table; an empty one means the cursor has
      passed the whole table. */
  lemma {:induction false} PageIsFull(rows: seq<Row>, cursor: int, limit: nat)
    requires RowOrder(rows)
    ensures var page := FirstAfter(rows, cursor, limit);
            |page| <= limit && (|page| < limit ==> UpTo(rows, NextCursor(page, cursor)) == rows)
    decreases |rows|, limit
  {
    if rows != [] && limit > 0 {
      TailOrder(rows);
      if rows[0].rowid > cursor {
        PageIsFull(rows[1..], cursor, limit - 1);
        FullFromHere(rows, cursor, limit);
      } else {
        PageIsFull(rows[1..], cursor, limit);
        PageIsNextStretch(rows[1..], cursor, limit);
      }
    }
  }

  lemma FullFromHere(rows: seq<Row>, cursor: int, limit: nat)
    requires RowOrder(rows) && rows != [] && limit > 0 && rows[0].rowid > cursor
    requires var rest := FirstAfter(rows[1..], cursor, limit - 1);
             |rest| < limit - 1 ==> UpTo(rows[1..], NextCursor(rest, cursor)) == rows[1..]
    ensures var page := FirstAfter(rows, cursor, limit);
            |page| < limit ==> UpTo(rows, NextCursor(page, cursor)) == rows
  {
    var rest := FirstAfter(rows[1..], cursor, limit - 1);
    var page := [rows[0]] + rest;
    if rest != [] && |page| < limit {
      PageRowsAreRows(rows[1..], cursor, limit - 1);
      assert rest[|rest| - 1] in rows[1..];
      assert page[|page| - 1] == rest[|rest| - 1];
      UpToStart(rows, NextCursor(page, cursor));
    } else if |page| < limit {
      AllAfter(rows[1..], cursor);
    }
  }

  lemma UpToStart(rows: seq<Row>, cursor: int)
    requires rows != [] && rows[0].rowid <= cursor && UpTo(rows[1..], cursor) == rows[1..]
    ensures UpTo(rows, cursor) == rows
  {
  }

  lemma PageRowsAreRows(rows: seq<Row>, cursor: int, limit: nat)
    ensures forall row :: row in FirstAfter(rows, cursor, limit) ==> row in rows
  {
    if rows != [] && limit > 0 {
      assert forall row :: row in rows[1..] ==> row in rows;
      PageRowsAreRows(rows[1..], cursor, limit - 1);
      PageRowsAreRows(rows[1..], cursor, limit);
    }
  }

  lemma ConsistentOrder(r: Rules, l: Ledger)
    requires Consistent(r, l)
    ensures RowOrder(l.rows)
  {
  }
}
