/** Paging a peer's table by rowid: no row is skipped or repeated while the peer keeps inserting. */
module AntiEntropy {
  import opened Basics
  import opened Wire
  import opened LedgerSpec
  import opened LedgerSteps
  import opened GossipLedgerClass
  import opened Convergence

  const PAGE_LIMIT: nat := 500
  const MAX_PAGES: nat := 20

  lemma {:induction false} UpToAppend(rows: seq<Row>, row: Row, cursor: int)
    requires RowOrder(rows + [row]) && row.rowid > cursor
    ensures UpTo(rows + [row], cursor) == UpTo(rows, cursor)
  {
    if rows != [] {
      assert (rows + [row])[1..] == rows[1..] + [row];
      assert RowOrder(rows[1..] + [row]) by {
        forall i, j | 0 <= i < j < |rows[1..] + [row]|
          ensures (rows[1..] + [row])[i].rowid < (rows[1..] + [row])[j].rowid
        {
          assert (rows[1..] + [row])[i] == (rows + [row])[i + 1] && (rows[1..] + [row])[j] == (rows + [row])[j + 1];
        }
      }
      UpToAppend(rows[1..], row, cursor);
    }
  }

  // ---------------------------------------------------------------- one puller, one source, interleaved

  /** `seen` records every row the pages have brought, in order. */
  datatype Link = Link(clock: real, source: Ledger, puller: Ledger, cursor: int, seen: seq<Row>)

  datatype Event =
    | SourceHears(now: real, envelope: Envelope)
    | PullerHears(now: real, envelope: Envelope)
    | Page(now: real, limit: nat)

  function Deliveries(now: real, rows: seq<Row>): seq<Delivery>
  {
    seq(|rows|, i requires 0 <= i < |rows| => Delivery(now, rows[i].envelope))
  }

  function Next(r: Rules, k: Link, e: Event): Link
  {
    match e
    case SourceHears(now, env) => k.(clock := now, source := AddTx(r, now, k.source, env))
    case PullerHears(now, env) => k.(clock := now, puller := AddTx(r, now, k.puller, env))
    case Page(now, limit) =>
      var page := PageRows(k.source, k.cursor, limit);
      Link(now, k.source, Feed(r, k.puller, Deliveries(now, page)), NextCursor(page, k.cursor), k.seen + page)
  }

  /** Every stored row was already timely, so it stays timely at every later reading of the clock. */
  ghost predicate TimelyRows(l: Ledger, now: real)
  {
    forall row :: row in l.rows ==>
      row.envelope.Signed? && row.envelope.payload.ts.Some? && Timely(row.envelope.payload, now)
  }

  ghost predicate Linked(r: Rules, k: Link)
  {
    && Consistent(r, k.source) && Consistent(r, k.puller) && k.source.base == k.puller.base
    && TimelyRows(k.source, k.clock)
    && k.cursor <= k.source.lastRowid
    && k.seen == UpTo(k.source.rows, k.cursor)
    && forall row :: row in k.seen ==> row.tx in Txs(k.puller)
  }

  /** Rows of a consistent source are accepted by any consistent ledger with the same baseline. */
  lemma RowsAccepted(r: Rules, source: Ledger, base: map<NodeId, Account>, now: real, rows: seq<Row>)
    requires Consistent(r, source) && base == source.base && TimelyRows(source, now)
    requires forall row :: row in rows ==> row in source.rows
    ensures Accepted(r, base, Deliveries(now, rows)) == TxSet(rows)
  {
    var ds := Deliveries(now, rows);
    forall d | d in ds ensures Counts(r, base, d) && TxOf(r, d.envelope.payload) in TxSet(rows) {
      var i :| 0 <= i < |ds| && ds[i] == d;
      assert rows[i] in source.rows;
    }
    forall t | t in TxSet(rows) ensures t in Accepted(r, base, ds) {
      var i :| 0 <= i < |rows| && rows[i].tx == t;
      assert rows[i] in source.rows && ds[i] in ds && ds[i].envelope == rows[i].envelope;
      assert Counts(r, base, ds[i]);
    }
  }

  lemma FeedPage(r: Rules, source: Ledger, puller: Ledger, now: real, rows: seq<Row>)
    requires InjectiveDigest(r) && Consistent(r, source) && Consistent(r, puller) && puller.base == source.base
    requires TimelyRows(source, now) && forall row :: row in rows ==> row in source.rows
    ensures var l := Feed(r, puller, Deliveries(now, rows));
            && Consistent(r, l) && l.base == puller.base && l.flagged == puller.flagged
            && Txs(l) == Txs(puller) + TxSet(rows)
  {
    FeedStores(r, puller, Deliveries(now, rows));
    RowsAccepted(r, source, puller.base, now, rows);
  }

  lemma TimelyLater(l: Ledger, now: real, later: real)
    requires TimelyRows(l, now) && now <= later
    ensures TimelyRows(l, later)
  {
  }

  lemma LinkedSourceHears(r: Rules, k: Link, now: real, e: Envelope)
    requires Linked(r, k) && k.clock <= now
    ensures Linked(r, Next(r, k, SourceHears(now, e)))
  {
    TimelyLater(k.source, k.clock, now);
    AddTxConsistent(r, now, k.source, e);
    if Stored(StatusOf(r, now, k.source, e)) {
      var row := Row(k.source.lastRowid + 1, TxOf(r, e.payload), e);
      ConsistentOrder(r, AddTx(r, now, k.source, e));
      UpToAppend(k.source.rows, row, k.cursor);
      assert TimelyRows(AddTx(r, now, k.source, e), now);
    }
  }

  lemma LinkedPage(r: Rules, k: Link, now: real, limit: nat)
    requires InjectiveDigest(r) && Linked(r, k) && k.clock <= now
    ensures Linked(r, Next(r, k, Page(now, limit)))
  {
    TimelyLater(k.source, k.clock, now);
    var page := PageRows(k.source, k.cursor, limit);
    PageRowsAreRows(k.source.rows, k.cursor, limit);
    ConsistentOrder(r, k.source);
    PageIsNextStretch(k.source.rows, k.cursor, limit);
    FeedPage(r, k.source, k.puller, now, page);
    CursorInRange(r, k.source, page, k.cursor);
    SeenStored(k.seen, page, Txs(k.puller));
  }

  lemma SeenStored(seen: seq<Row>, page: seq<Row>, stored: set<Tx>)
    requires forall row :: row in seen ==> row.tx in stored
    ensures forall row :: row in seen + page ==> row.tx in stored + TxSet(page)
  {
    forall row | row in seen + page ensures row.tx in stored + TxSet(page) {
      assert row in seen || row in page;
    }
  }

  lemma CursorInRange(r: Rules, source: Ledger, page: seq<Row>, cursor: int)
    requires Consistent(r, source) && cursor <= source.lastRowid && forall row :: row in page ==> row in source.rows
    ensures NextCursor(page, cursor) <= source.lastRowid
  {
    if page != [] {
      assert page[|page| - 1] in source.rows;
    }
  }

  lemma LinkedStep(r: Rules, k: Link, e: Event)
    requires InjectiveDigest(r) && Linked(r, k) && k.clock <= e.now
    ensures Linked(r, Next(r, k, e))
  {
    match e
    case SourceHears(now, env) => LinkedSourceHears(r, k, now, env);
    case PullerHears(now, env) =>
      TimelyLater(k.source, k.clock, now);
      AddTxConsistent(r, now, k.puller, env);
      AddTxEffect(r, now, k.puller, env);
    case Page(now, limit) => LinkedPage(r, k, now, limit);
  }

  function Events(r: Rules, k: Link, es: seq<Event>): Link
    decreases |es|
  {
    if es == [] then k else Next(r, Events(r, k, es[..|es| - 1]), es[|es| - 1])
  }

  ghost predicate Monotone(start: real, es: seq<Event>) {
    && (forall i :: 0 <= i < |es| ==> start <= es[i].now)
    && (forall i, j :: 0 <= i < j < |es| ==> es[i].now <= es[j].now)
  }

  lemma {:induction false} LinkedRun(r: Rules, k: Link, es: seq<Event>)
    requires InjectiveDigest(r) && Linked(r, k) && Monotone(k.clock, es)
    ensures Linked(r, Events(r, k, es))
    ensures Events(r, k, es).clock == if es == [] then k.clock else es[|es| - 1].now
    decreases |es|
  {
    if es != [] {
      LinkedRun(r, k, es[..|es| - 1]);
      LinkedStep(r, Events(r, k, es[..|es| - 1]), es[|es| - 1]);
    }
  }

  /** After any interleaving, the pages together are exactly the source's rows up to the cursor, in
      order and once each, and every one of those rows is stored at the puller. */
  lemma PullingIsComplete(r: Rules, k: Link, es: seq<Event>)
    requires InjectiveDigest(r) && Linked(r, k) && Monotone(k.clock, es)
    ensures var end := Events(r, k, es);
            && end.seen <= end.source.rows
            && forall row :: row in end.source.rows && row.rowid <= end.cursor ==>
                 row in end.seen && row.tx in Txs(end.puller)
  {
    LinkedRun(r, k, es);
    var end := Events(r, k, es);
    ConsistentOrder(r, end.source);
    UpToIsPrefix(end.source.rows, end.cursor);
  }

  /** A puller that gets an empty page holds everything the source holds. */
  lemma CaughtUpHoldsAll(r: Rules, k: Link)
    requires Linked(r, k) && PageRows(k.source, k.cursor, PAGE_LIMIT) == []
    ensures Txs(k.source) <= Txs(k.puller)
  {
    ConsistentOrder(r, k.source);
    PageIsFull(k.source.rows, k.cursor, PAGE_LIMIT);
    assert forall t :: t in Txs(k.source) ==> t in Txs(k.puller);
  }

  lemma RowStored(r: Rules, source: Ledger, l: Ledger, now: real, row: Row)
    requires InjectiveDigest(r) && Consistent(r, source) && Consistent(r, l) && l.base == source.base
    requires TimelyRows(source, now) && row in source.rows
    ensures var l' := AddTx(r, now, l, row.envelope);
            && l'.base == l.base && l'.flagged == l.flagged && Txs(l') == Txs(l) + {row.tx}
            && |l'.rows| == |l.rows| + if Stored(StatusOf(r, now, l, row.envelope)) then 1 else 0
  {
    AddTxEffect(r, now, l, row.envelope);
  }

  lemma OneMoreTx(start: set<Tx>, page: seq<Row>, i: nat)
    requires i < |page|
    ensures (start + TxSet(page[..i])) + {page[i].tx} == start + TxSet(page[..i + 1])
  {
    TxSetAppend(page[..i], page[i]);
    assert page[..i + 1] == page[..i] + [page[i]];
  }

  // ---------------------------------------------------------------- the pull loop

  class Peer {
    const ledger: GossipLedger
    var cursors: map<string, int>

    constructor (ledger: GossipLedger)
      ensures this.ledger == ledger && cursors == map[] && forall a :: CursorOf(a) == 0
    {
      this.ledger := ledger;
      cursors := map[];
    }

    function CursorOf(address: string): int
      reads this
    {
      if address in cursors then cursors[address] else 0
    }

    method ApplyRow(source: GossipLedger, row: Row, now: real) returns (pulled: nat)
      requires ledger.Valid() && source.Valid() && source != ledger && ledger.rules == source.rules
      requires InjectiveDigest(ledger.rules) && ledger.base == source.base && TimelyRows(source.State(), now)
      requires row in source.rows
      modifies ledger
      ensures ledger.Valid() && ledger.base == old(ledger.base) && ledger.flaggedBase == old(ledger.flaggedBase)
      ensures TxSet(ledger.rows) == old(TxSet(ledger.rows)) + {row.tx}
      ensures pulled == |ledger.rows| - |old(ledger.rows)|
    {
      RowStored(ledger.rules, source.State(), ledger.State(), now, row);
      var status := ledger.Add(now, row.envelope);
      pulled := if status == New || status == Conflict then 1 else 0;
    }

    /** Applies one page; the count is of the rows that were stored. */
    method Apply(source: GossipLedger, page: seq<Row>, now: real) returns (pulled: nat)
      requires ledger.Valid() && source.Valid() && source != ledger && ledger.rules == source.rules
      requires InjectiveDigest(ledger.rules) && ledger.base == source.base && TimelyRows(source.State(), now)
      requires forall row :: row in page ==> row in source.rows
      modifies ledger
      ensures ledger.Valid() && ledger.base == old(ledger.base) && ledger.flaggedBase == old(ledger.flaggedBase)
      ensures TxSet(ledger.rows) == old(TxSet(ledger.rows)) + TxSet(page)
      ensures pulled == |ledger.rows| - |old(ledger.rows)|
    {
      pulled := 0;
      ghost var start := TxSet(ledger.rows);
      for i := 0 to |page|
        invariant ledger.Valid() && ledger.base == old(ledger.base) && ledger.flaggedBase == old(ledger.flaggedBase)
        invariant TxSet(ledger.rows) == start + TxSet(page[..i])
        invariant pulled == |ledger.rows| - |old(ledger.rows)|
      {
        OneMoreTx(start, page, i);
        var one := ApplyRow(source, page[i], now);
        pulled := pulled + one;
      }
      assert page[..|page|] == page;
    }

    /** One answered request: the next page is applied and the cursor saved. */
    method PullPage(address: string, source: GossipLedger, now: real) returns (pulled: nat, more: bool)
      requires ledger.Valid() && source.Valid() && source != ledger && ledger.rules == source.rules
      requires InjectiveDigest(ledger.rules) && ledger.base == source.base && TimelyRows(source.State(), now)
      modifies this, ledger
      ensures ledger.Valid() && ledger.base == old(ledger.base)
      ensures var page := PageRows(source.State(), old(CursorOf(address)), PAGE_LIMIT);
              && Txs(ledger.State()) == old(Txs(ledger.State())) + TxSet(page)
              && cursors == old(cursors)[address := NextCursor(page, old(CursorOf(address)))]
              && more == (page != [])
      ensures pulled == |ledger.rows| - |old(ledger.rows)|
    {
      var cursor := CursorOf(address);
      var page, next := source.TxsAfter(cursor, PAGE_LIMIT);
      PageRowsAreRows(source.rows, cursor, PAGE_LIMIT);
      pulled := Apply(source, page, now);
      cursors := cursors[address := next];
      more := page != [];
    }

    /** `answered[i]` says whether the i-th request reached the peer. What is stored afterwards is
        exactly the stretch of the source's table that the saved cursor moved over, and that is a full
        page for every request answered before the first failure, or all there is. */
    method PullFrom(address: string, source: GossipLedger, now: real, answered: seq<bool>) returns (pulled: nat)
      requires |answered| == 20
      requires ledger.Valid() && source.Valid() && source != ledger && ledger.rules == source.rules
      requires InjectiveDigest(ledger.rules) && ledger.base == source.base && TimelyRows(source.State(), now)
      modifies this, ledger
      ensures ledger.Valid() && CursorOf(address) >= old(CursorOf(address))
      ensures Txs(ledger.State()) ==
                old(Txs(ledger.State())) + TxSet(Between(source.rows, old(CursorOf(address)), CursorOf(address)))
      ensures ReadFor(source.rows, old(CursorOf(address)), CursorOf(address), Leading(answered))
      ensures pulled == |ledger.rows| - |old(ledger.rows)|
      ensures OnlyMoved(old(cursors), cursors, address)
    {
      pulled := 0;
      ghost var start, held := CursorOf(address), Txs(ledger.State());
      var more := true;
      NothingMoved(source.rows, start);
      for i := 0 to MAX_PAGES
        invariant source.State() == old(source.State())
        invariant ledger.Valid() && ledger.base == old(ledger.base) && CursorOf(address) >= start
        invariant Txs(ledger.State()) == held + TxSet(Between(source.rows, start, CursorOf(address)))
        invariant pulled == |ledger.rows| - |old(ledger.rows)|
        invariant OnlyMoved(old(cursors), cursors, address)
        invariant i <= Leading(answered) && Moved(source.rows, start, CursorOf(address), i, more)
      {
        if !more || !answered[i] {
          RoundEnds(source.rows, start, CursorOf(address), i, more, answered);
          return;
        }
        LeadingBound(answered, i);
        ConsistentOrder(source.rules, source.State());
        OneMorePage(held, source.rows, start, CursorOf(address), PAGE_LIMIT);
        OneMoreStretch(source.rows, start, CursorOf(address), i, more);
        var stored;
        stored, more := PullPage(address, source, now);
        pulled := pulled + stored;
      }
      FullRound(source.rows, start, CursorOf(address), more, answered);
    }
  }

  /** The cursors of all other peers are as they were. */
  ghost predicate OnlyMoved(before: map<string, int>, after: map<string, int>, address: string) {
    after.Keys <= before.Keys + {address}
    && forall a :: a in before && a != address ==> a in after && after[a] == before[a]
  }

  /** How many requests were answered before the first that was not. */
  function Leading(answered: seq<bool>): (k: nat)
    ensures k <= |answered|
  {
    if answered == [] || !answered[0] then 0 else 1 + Leading(answered[1..])
  }

  lemma {:induction false} LeadingBound(answered: seq<bool>, i: nat)
    requires i <= Leading(answered)
    ensures i < |answered| ==> (answered[i] <==> i < Leading(answered))
    decreases i
  {
    if i > 0 {
      LeadingBound(answered[1..], i - 1);
    }
  }

  lemma {:induction false} UpToSize(rows: seq<Row>, cursor: int)
    ensures |UpTo(rows, cursor)| <= |rows|
  {
    if rows != [] {
      UpToSize(rows[1..], cursor);
    }
  }

  /** So many requests have moved the cursor by as many full pages, or to the end of the table. */
  ghost predicate ReadFor(rows: seq<Row>, start: int, cursor: int, requests: nat) {
    |Between(rows, start, cursor)| == Min(requests * 500, |rows| - |UpTo(rows, start)|)
  }

  ghost predicate Moved(rows: seq<Row>, start: int, cursor: int, done: nat, more: bool) {
    ReadFor(rows, start, cursor, done) && (!more ==> |Between(rows, start, cursor)| == |rows| - |UpTo(rows, start)|)
  }

  lemma FullRound(rows: seq<Row>, start: int, cursor: int, more: bool, answered: seq<bool>)
    requires Moved(rows, start, cursor, |answered|, more) && |answered| <= Leading(answered)
    ensures ReadFor(rows, start, cursor, Leading(answered))
  {
  }

  lemma NothingMoved(rows: seq<Row>, start: int)
    ensures Moved(rows, start, start, 0, true)
  {
    UpToSize(rows, start);
  }

  lemma OneMoreStretch(rows: seq<Row>, start: int, cursor: int, done: nat, more: bool)
    requires RowOrder(rows) && start <= cursor && Moved(rows, start, cursor, done, more)
    ensures var page := FirstAfter(rows, cursor, PAGE_LIMIT);
            Moved(rows, start, NextCursor(page, cursor), done + 1, page != [])
  {
    PageIsNextStretch(rows, cursor, PAGE_LIMIT);
    PageIsFull(rows, cursor, PAGE_LIMIT);
    UpToGrows(rows, start, cursor);
    UpToSize(rows, NextCursor(FirstAfter(rows, cursor, PAGE_LIMIT), cursor));
  }

  lemma RoundEnds(rows: seq<Row>, start: int, cursor: int, done: nat, more: bool, answered: seq<bool>)
    requires Moved(rows, start, cursor, done, more) && done < |answered| && done <= Leading(answered)
    requires !more || !answered[done]
    ensures ReadFor(rows, start, cursor, Leading(answered))
  {
    LeadingBound(answered, done);
  }

  /** With every request answered and no more rows than the requests can bring, the puller has read the
      whole table. */
  lemma AnsweredRoundReadsAll(rows: seq<Row>, start: int, end: int, answered: seq<bool>)
    requires RowOrder(rows) && start <= end && |answered| == 20 && forall i :: 0 <= i < |answered| ==> answered[i]
    requires ReadFor(rows, start, end, Leading(answered))
    requires |rows| - |UpTo(rows, start)| <= 10_000
    ensures UpTo(rows, end) == rows
  {
    AllLeading(answered);
    UpToGrows(rows, start, end);
    UpToIsPrefix(rows, end);
  }

  lemma {:induction false} AllLeading(answered: seq<bool>)
    requires forall i :: 0 <= i < |answered| ==> answered[i]
    ensures Leading(answered) == |answered|
  {
    if answered != [] {
      AllLeading(answered[1..]);
    }
  }

  lemma OneMorePage(held: set<Tx>, rows: seq<Row>, start: int, cursor: int, limit: nat)
    requires RowOrder(rows) && start <= cursor
    ensures var page := FirstAfter(rows, cursor, limit);
            && cursor <= NextCursor(page, cursor)
            && (held + TxSet(Between(rows, start, cursor))) + TxSet(page) ==
                 held + TxSet(Between(rows, start, NextCursor(page, cursor)))
  {
    BetweenGrows(rows, start, cursor, limit);
  }

  /** The rows after one cursor and up to a later one. */
  function Between(rows: seq<Row>, from: int, to: int): seq<Row>
  {
    var before, upTo := UpTo(rows, from), UpTo(rows, to);
    if |before| <= |upTo| then upTo[|before|..] else []
  }

  lemma {:induction false} UpToGrows(rows: seq<Row>, from: int, to: int)
    requires from <= to
    ensures UpTo(rows, from) <= UpTo(rows, to)
  {
    if rows != [] && rows[0].rowid <= from {
      UpToGrows(rows[1..], from, to);
    }
  }

  lemma BetweenGrows(rows: seq<Row>, start: int, cursor: int, limit: nat)
    requires RowOrder(rows) && start <= cursor
    ensures var page := FirstAfter(rows, cursor, limit);
            && cursor <= NextCursor(page, cursor)
            && TxSet(Between(rows, start, NextCursor(page, cursor))) == TxSet(Between(rows, start, cursor)) + TxSet(page)
  {
    var page := FirstAfter(rows, cursor, limit);
    PageIsNextStretch(rows, cursor, limit);
    UpToGrows(rows, start, cursor);
    TxSetConcat(Between(rows, start, cursor), page);
    assert Between(rows, start, NextCursor(page, cursor)) == Between(rows, start, cursor) + page;
  }

  lemma TxSetConcat(a: seq<Row>, b: seq<Row>)
    ensures TxSet(a + b) == TxSet(a) + TxSet(b)
  {
    assert forall x :: x in a + b <==> x in a || x in b;
  }
}
