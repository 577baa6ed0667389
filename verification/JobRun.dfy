/** A job as its workers run it: every piece of a worker's loop between two waits is one step, steps of
    different workers interleave freely, and each chunk request carries a signed payment that is applied
    to the local ledger when the result arrives. */
module JobRun {
  import opened Basics
  import opened Sums
  import opened Wire
  import opened LedgerSpec
  import opened LedgerSteps
  import opened GossipLedgerClass
  import opened Scheduling
  import opened SchedulerRuns

  const MAX_PROVIDER_STRIKES: int := 3

  /** `prices` are the advertised prices per item, in millionths of a credit. */
  datatype Config = Config(rules: Rules, me: Identity, prices: map<NodeId, int>, maxPrice: int,
                           chunkSize: int, redundancy: int, fp: Fingerprint)

  datatype Payment = Payment(chunk: nat, amount: int, envelope: Envelope)

  datatype Job = Job(board: seq<Chunk>, ledger: Ledger, clock: real, pending: map<NodeId, Payment>,
                     strikes: map<NodeId, int>, spent: int, exposure: int)

  datatype Event =
    | Dispatch(worker: NodeId, now: real)
    | Unreachable(worker: NodeId, now: real)
    | Refused(worker: NodeId, now: real)
    | Settled(worker: NodeId, now: real, results: seq<Json>)

  /** The caller's keys work, digests do not collide, and every usable provider is somebody else whose
      id has the right length. */
  ghost predicate Usable(g: Config)
  {
    && InjectiveDigest(g.rules)
    && g.rules.bound(g.me.nodeId, g.me.pubkey, g.me.powNonce)
    && (forall p :: g.rules.verify(g.me.pubkey, p, g.me.sign(p)))
    && (forall p :: p in g.prices ==> |p.hex| == 64 && p != g.me.nodeId && g.prices[p] <= g.maxPrice)
    && g.chunkSize >= 1 && g.redundancy >= 1
  }

  /** No provider asks a negative price. Nothing in the records enforces this. */
  ghost predicate FairPrices(g: Config) {
    g.maxPrice >= 0 && forall p :: p in g.prices ==> g.prices[p] >= 0
  }

  // ---------------------------------------------------------------- totals over the board

  function Total(board: seq<Chunk>, f: Chunk -> int): int
  {
    if board == [] then 0 else Total(board[..|board| - 1], f) + f(board[|board| - 1])
  }

  lemma {:induction false} TotalUpdate(board: seq<Chunk>, f: Chunk -> int, i: nat, c: Chunk)
    requires i < |board|
    ensures Total(board[i := c], f) == Total(board, f) - f(board[i]) + f(c)
  {
    var last := |board| - 1;
    if i < last {
      assert board[i := c][..last] == board[..last][i := c];
      TotalUpdate(board[..last], f, i, c);
    } else {
      assert board[i := c][..last] == board[..last];
    }
  }

  function Flying(): Chunk -> int {
    (c: Chunk) => |c.inFlight|
  }

  function Size(): Chunk -> int {
    (c: Chunk) => |c.items|
  }

  function PriceOf(g: Config, p: NodeId): int {
    if p in g.prices then g.prices[p] else 0
  }

  function VotePrices(g: Config, votes: seq<Vote>): int
  {
    if votes == [] then 0 else VotePrices(g, votes[..|votes| - 1]) + PriceOf(g, votes[|votes| - 1].provider)
  }

  function Cost(g: Config): Chunk -> int {
    (c: Chunk) => VotePrices(g, c.votes) * |c.items|
  }

  /** Before anything was handed out. */
  lemma {:induction false} FreshTotals(g: Config, board: seq<Chunk>)
    requires forall i :: 0 <= i < |board| ==> board[i].inFlight == {} && board[i].votes == []
    ensures Total(board, Flying()) == 0 == Total(board, Cost(g))
  {
    if board != [] {
      FreshTotals(g, board[..|board| - 1]);
    }
  }

  /** Credits set aside for chunks in flight. */
  function SpentPending(g: Config, board: seq<Chunk>): int {
    FullChunks(Total(board, Flying()), g.maxPrice, g.chunkSize)
  }

  /** What `n` chunks of full size cost. */
  function FullChunks(n: int, price: int, size: int): int {
    n * price * size
  }

  function Strikes(j: Job, p: NodeId): int {
    if p in j.strikes then j.strikes[p] else 0
  }

  predicate Finished(board: seq<Chunk>) {
    forall i :: 0 <= i < |board| ==> board[i].accepted.Some?
  }

  // ---------------------------------------------------------------- the steps of a worker

  predicate Enabled(g: Config, j: Job, e: Event)
  {
    && j.clock <= e.now
    && match e
       case Dispatch(p, _) =>
         p in g.prices && p !in j.pending && Strikes(j, p) < MAX_PROVIDER_STRIKES && !Finished(j.board)
       case Settled(p, _, results) =>
         p in j.pending && j.pending[p].chunk < |j.board| && |results| == |j.board[j.pending[p].chunk].items|
       case _ => e.worker in j.pending && j.pending[e.worker].chunk < |j.board|
  }

  function Price(g: Config, c: Chunk, p: NodeId): int {
    PriceFor(PriceOf(g, p), |c.items|)
  }

  function PriceFor(price: int, items: nat): int {
    price * items
  }

  function Credits(micro: int): real {
    micro as real / 1000000.0
  }

  /** Acquiring a chunk and finding the credits do not suffice: the worker gives up. */
  function Skipped(j: Job, p: NodeId, now: real, i: nat): Job
    requires i < |j.board|
  {
    j.(board := j.board[i := Failed(Acquired(j.board[i], p), p)], clock := now,
       strikes := j.strikes[p := MAX_PROVIDER_STRIKES])
  }

  /** Acquiring a chunk, signing its payment and sending both. */
  ghost function Sent(g: Config, j: Job, p: NodeId, now: real, i: nat): Job
    requires i < |j.board|
  {
    var amount := Price(g, j.board[i], p);
    var payload := TxPayload(g.me, p, Credits(amount), ClaimedSeq(j.ledger, g.me.nodeId), TimeText(now));
    j.(board := j.board[i := Acquired(j.board[i], p)], clock := now, ledger := ReserveSeq(j.ledger, g.me.nodeId),
       pending := j.pending[p := Payment(i, amount, Seal(g.me, payload))])
  }

  ghost predicate Affordable(g: Config, j: Job, p: NodeId, i: nat)
    requires i < |j.board|
  {
    BalanceOf(j.ledger, g.me.nodeId) - SpentPending(g, j.board[i := Acquired(j.board[i], p)]) >= Price(g, j.board[i], p)
  }

  ghost function DispatchTo(g: Config, j: Job, p: NodeId, now: real, i: nat): Job
    requires i < |j.board|
  {
    if Affordable(g, j, p, i) then Sent(g, j, p, now, i) else Skipped(j, p, now, i)
  }

  function Abandon(j: Job, p: NodeId, now: real, lost: int): Job
    requires p in j.pending && j.pending[p].chunk < |j.board|
  {
    var i := j.pending[p].chunk;
    j.(board := j.board[i := Failed(j.board[i], p)], clock := now, pending := j.pending - {p},
       strikes := j.strikes[p := Strikes(j, p) + 1], exposure := j.exposure + lost)
  }

  function Settle(g: Config, j: Job, p: NodeId, now: real, results: seq<Json>): Job
    requires p in j.pending && j.pending[p].chunk < |j.board|
  {
    SettleWith(j, p, now, Completed(j.board[j.pending[p].chunk], g.redundancy, g.fp, p, results),
               AddTx(g.rules, now, j.ledger, j.pending[p].envelope))
  }

  /** The chunk with its new vote and the ledger with the payment take their places. */
  function SettleWith(j: Job, p: NodeId, now: real, c: Chunk, l: Ledger): Job
    requires p in j.pending && j.pending[p].chunk < |j.board|
  {
    j.(board := j.board[j.pending[p].chunk := c], clock := now, ledger := l, pending := j.pending - {p},
       strikes := j.strikes[p := 0], spent := j.spent + j.pending[p].amount)
  }

  ghost function Step(g: Config, j: Job, e: Event): Job
    requires Enabled(g, j, e)
  {
    match e
    case Dispatch(p, now) =>
      (match FirstEligible(j.board, p, 0)
       case Some(i) => FirstEligibleMeans(j.board, p, 0); DispatchTo(g, j, p, now, i)
       case None => j.(clock := now))
    case Unreachable(p, now) => Abandon(j, p, now, 0)
    case Refused(p, now) => Abandon(j, p, now, j.pending[p].amount)
    case Settled(p, now, results) => Settle(g, j, p, now, results)
  }

  // ---------------------------------------------------------------- what each step keeps

  /** What a pending payment can take from the caller; the ledger refuses one that is not positive. */
  function Owed(pending: map<NodeId, Payment>): NodeId -> int {
    (p: NodeId) => if p in pending then Max(pending[p].amount, 0) else 0
  }

  ghost function Promised(pending: map<NodeId, Payment>): int {
    Sum(pending.Keys, Owed(pending))
  }

  /** A pending payment is the caller's own, for the price of its chunk, and its seq is above every
      stored seq of the caller's that it could clash with. */
  ghost predicate GoodPayment(g: Config, j: Job, p: NodeId)
    requires p in j.pending
  {
    OnBoard(g, j.board, p, j.pending[p]) && Outstanding(g, j.ledger, j.clock, p, j.pending[p])
  }

  ghost predicate OnBoard(g: Config, board: seq<Chunk>, p: NodeId, pay: Payment)
  {
    && p in g.prices && pay.chunk < |board| && p in board[pay.chunk].inFlight
    && pay.amount == Price(g, board[pay.chunk], p)
  }

  ghost predicate Outstanding(g: Config, l: Ledger, clock: real, p: NodeId, pay: Payment)
  {
    && pay.envelope == Seal(g.me, TxPayload(g.me, p, Credits(pay.amount), SeqOf(pay.envelope), StampOf(pay.envelope)))
    && OpenSeq(g, l, SeqOf(pay.envelope)) && Value(StampOf(pay.envelope)) <= clock + MAX_CLOCK_SKEW
  }

  /** A seq that was claimed and is not in the ledger. */
  ghost predicate OpenSeq(g: Config, l: Ledger, s: int)
  {
    && s >= 1 && s > BaseRow(l.base, g.me.nodeId).seqNo
    && g.me.nodeId in l.reserved && s <= l.reserved[g.me.nodeId]
    && forall t :: t in Txs(l) && t.sender == g.me.nodeId ==> t.seqNo != s
  }

  function StampOf(e: Envelope): Decimal {
    if e.Signed? && e.payload.ts.Some? then e.payload.ts.value else Decimal(0, 0)
  }

  function SeqOf(e: Envelope): int {
    if e.Signed? && e.payload.seqNo.Some? then e.payload.seqNo.value else 0
  }

  ghost predicate Books(g: Config, j: Job)
  {
    && Consistent(g.rules, j.ledger)
    && (forall p :: p in j.pending ==> GoodPayment(g, j, p))
    && SeqsDiffer(j.pending)
  }

  ghost predicate SeqsDiffer(pending: map<NodeId, Payment>) {
    forall p, q :: p in pending && q in pending && SeqOf(pending[p].envelope) == SeqOf(pending[q].envelope) ==> p == q
  }

  /** The requests in flight are exactly the pending payments. */
  ghost predicate Tracked(board: seq<Chunk>, pending: map<NodeId, Payment>)
  {
    Placed(board, pending) && Total(board, Flying()) == |pending|
  }

  ghost predicate Placed(board: seq<Chunk>, pending: map<NodeId, Payment>) {
    forall i, p :: 0 <= i < |board| && p in board[i].inFlight ==> p in pending && pending[p].chunk == i
  }

  ghost predicate Small(g: Config, board: seq<Chunk>) {
    forall i :: 0 <= i < |board| ==> |board[i].items| <= g.chunkSize
  }

  ghost predicate Running(g: Config, board: seq<Chunk>, pending: map<NodeId, Payment>) {
    AllSane(board, g.redundancy, g.fp) && Tracked(board, pending) && Small(g, board)
  }

  /** One chunk changes together with the payment of one worker. */
  lemma RunningUpdate(g: Config, board: seq<Chunk>, pending: map<NodeId, Payment>, i: nat, c: Chunk,
                      pending': map<NodeId, Payment>, p: NodeId)
    requires Running(g, board, pending) && i < |board|
    requires Sane(c, g.redundancy, g.fp) && c.items == board[i].items
    requires c.inFlight - {p} == board[i].inFlight - {p}
    requires p in c.inFlight ==> p in pending' && pending'[p].chunk == i
    requires p in pending ==> pending[p].chunk == i
    requires forall q :: q in pending && q != p ==> q in pending' && pending'[q] == pending[q]
    requires |pending'| - |pending| == |c.inFlight| - |board[i].inFlight|
    ensures Running(g, board[i := c], pending')
  {
    SaneUpdate(g, board, i, c);
    PlacedUpdate(board, pending, i, c, pending', p);
    TotalUpdate(board, Flying(), i, c);
  }

  lemma PlacedUpdate(board: seq<Chunk>, pending: map<NodeId, Payment>, i: nat, c: Chunk,
                     pending': map<NodeId, Payment>, p: NodeId)
    requires Placed(board, pending) && i < |board|
    requires c.inFlight - {p} == board[i].inFlight - {p}
    requires p in c.inFlight ==> p in pending' && pending'[p].chunk == i
    requires p in pending ==> pending[p].chunk == i
    requires forall q :: q in pending && q != p ==> q in pending' && pending'[q] == pending[q]
    ensures Placed(board[i := c], pending')
  {
    var board' := board[i := c];
    forall k, q | 0 <= k < |board'| && q in board'[k].inFlight ensures q in pending' && pending'[q].chunk == k {
      assert q in board[k].inFlight ==> q in pending && pending[q].chunk == k;
      if q != p {
        assert q in board'[k].inFlight - {p};
        assert q in board[k].inFlight;
      }
    }
  }

  lemma SaneUpdate(g: Config, board: seq<Chunk>, i: nat, c: Chunk)
    requires AllSane(board, g.redundancy, g.fp) && Small(g, board) && i < |board|
    requires Sane(c, g.redundancy, g.fp) && c.items == board[i].items
    ensures AllSane(board[i := c], g.redundancy, g.fp) && Small(g, board[i := c])
  {
  }

  // ---------------------------------------------------------------- the caller's own transfers

  lemma MicroCredits(m: int)
    ensures Micro(Credits(m)) == m && AmountText(Credits(m)) == Decimal(m, 6)
    ensures Value(Decimal(m, 6)) == Credits(m) && (Credits(m) > 0.0 <==> m > 0)
  {
    assert Credits(m) * 1000000.0 == m as real;
    AmountTextValue(Credits(m));
  }

  /** Applying a pending payment takes exactly its amount from the caller, or nothing if the amount is
      not positive: the ledger then calls it invalid. */
  lemma OwnPaymentApplied(g: Config, j: Job, p: NodeId, now: real)
    requires Usable(g) && Consistent(g.rules, j.ledger) && p in j.pending && GoodPayment(g, j, p) && j.clock <= now
    ensures var pay := j.pending[p];
            var after := AddTx(g.rules, now, j.ledger, pay.envelope);
            && BalanceOf(after, g.me.nodeId) == BalanceOf(j.ledger, g.me.nodeId) - Max(pay.amount, 0)
            && after.base == j.ledger.base && after.reserved == j.ledger.reserved
            && (forall t :: t in Txs(after) ==> t in Txs(j.ledger) || t.seqNo == SeqOf(pay.envelope))
  {
    var pay := j.pending[p];
    var e := pay.envelope;
    MicroCredits(pay.amount);
    assert e.payload.amount == Some(Decimal(pay.amount, 6));
    AddTxEffect(g.rules, now, j.ledger, e);
    if pay.amount > 0 {
      var t := TxOf(g.rules, e.payload);
      assert Valid(g.rules, now, e);
      FreshSlotMoves(j.ledger, AddTx(g.rules, now, j.ledger, e), t, g.me.nodeId);
    }
  }

  lemma ClaimIsOpen(g: Config, j: Job)
    requires Consistent(g.rules, j.ledger)
    ensures var s, l' := ClaimedSeq(j.ledger, g.me.nodeId), ReserveSeq(j.ledger, g.me.nodeId);
            && OpenSeq(g, l', s)
            && (forall p :: p in j.pending && GoodPayment(g, j, p) ==> SeqOf(j.pending[p].envelope) < s)
            && BalanceOf(l', g.me.nodeId) == BalanceOf(j.ledger, g.me.nodeId)
  {
  }

  lemma ReserveConsistent(r: Rules, l: Ledger, n: NodeId)
    requires Consistent(r, l)
    ensures Consistent(r, ReserveSeq(l, n))
  {
  }

  /** A payment stays good while its chunk keeps it in flight and its seq stays open. */
  lemma KeepPayment(g: Config, j: Job, j': Job, q: NodeId)
    requires q in j.pending && GoodPayment(g, j, q) && q in j'.pending && j'.pending[q] == j.pending[q]
    requires |j'.board| == |j.board| && j.clock <= j'.clock
    requires var i := j.pending[q].chunk; q in j'.board[i].inFlight && j'.board[i].items == j.board[i].items
    requires j'.ledger.base == j.ledger.base
    requires g.me.nodeId in j.ledger.reserved ==>
               g.me.nodeId in j'.ledger.reserved && j.ledger.reserved[g.me.nodeId] <= j'.ledger.reserved[g.me.nodeId]
    requires forall t :: t in Txs(j'.ledger) && t.sender == g.me.nodeId ==>
               t in Txs(j.ledger) || t.seqNo != SeqOf(j.pending[q].envelope)
    ensures GoodPayment(g, j', q)
  {
    assert OpenSeq(g, j'.ledger, SeqOf(j.pending[q].envelope));
  }

  // ---------------------------------------------------------------- promised credits

  lemma PromiseMore(pending: map<NodeId, Payment>, p: NodeId, pay: Payment)
    requires p !in pending
    ensures Promised(pending[p := pay]) == Promised(pending) + Max(pay.amount, 0)
    ensures |pending[p := pay]| == |pending| + 1
  {
    var more := pending[p := pay];
    assert more.Keys == pending.Keys + {p} && more.Keys - {p} == pending.Keys;
    SumPick(more.Keys, Owed(more), p);
    SumEqual(pending.Keys, Owed(more), Owed(pending));
  }

  lemma PromiseLess(pending: map<NodeId, Payment>, p: NodeId)
    requires p in pending
    ensures Promised(pending - {p}) == Promised(pending) - Max(pending[p].amount, 0)
    ensures |pending - {p}| == |pending| - 1 && Promised(pending - {p}) >= 0
  {
    var fewer := pending - {p};
    assert fewer.Keys == pending.Keys - {p};
    SumPick(pending.Keys, Owed(pending), p);
    SumEqual(fewer.Keys, Owed(fewer), Owed(pending));
    PromisedIsNatural(fewer);
  }

  lemma PromisedIsNatural(pending: map<NodeId, Payment>)
    ensures Promised(pending) >= 0
  {
    OwedSum(pending.Keys, pending);
  }

  lemma {:induction false} OwedSum(s: set<NodeId>, pending: map<NodeId, Payment>)
    ensures Sum(s, Owed(pending)) >= 0
  {
    if s != {} {
      var p :| p in s;
      SumPick(s, Owed(pending), p);
      OwedSum(s - {p}, pending);
    }
  }

  /** What is promised never exceeds one full chunk at the highest price per pending request. */
  lemma PromisedBound(g: Config, j: Job)
    requires Usable(g) && Running(g, j.board, j.pending) && Books(g, j)
    ensures Promised(j.pending) <= |j.pending| * (Max(g.maxPrice, 0) * g.chunkSize)
  {
    forall p | p in j.pending.Keys ensures Owed(j.pending)(p) <= Max(g.maxPrice, 0) * g.chunkSize {
      assert GoodPayment(g, j, p);
      PriceBound(PriceOf(g, p), |j.board[j.pending[p].chunk].items|, g.maxPrice, g.chunkSize);
    }
    SumAtMost(j.pending.Keys, Owed(j.pending), Max(g.maxPrice, 0) * g.chunkSize);
  }

  lemma PriceBound(price: int, items: nat, maxPrice: int, size: int)
    requires price <= maxPrice && items <= size
    ensures Max(price * items, 0) <= Max(maxPrice, 0) * size
  {
    if price >= 0 {
      Monotone(price, maxPrice, items, size);
    } else {
      Monotone(0, -price, 0, items);
      NegativeProduct(price, items);
      Monotone(0, Max(maxPrice, 0), 0, size);
    }
  }

  lemma NegativeProduct(price: int, items: nat)
    requires price <= 0
    ensures price * items <= 0
  {
  }

  // ---------------------------------------------------------------- the invariant, step by step

  /** The balance covers every payment in flight that can take something from it, and has not been
      driven below zero: whoever starts overdrawn stays where it started. */
  ghost predicate Solvent(g: Config, j: Job, start: int)
  {
    && Promised(j.pending) <= Max(BalanceOf(j.ledger, g.me.nodeId), 0)
    && BalanceOf(j.ledger, g.me.nodeId) >= (if start < 0 then start else 0)
  }

  ghost predicate SpentIsDrop(g: Config, j: Job, start: int) {
    j.spent == start - BalanceOf(j.ledger, g.me.nodeId)
  }

  ghost predicate SpentIsCost(g: Config, j: Job) {
    j.spent == Total(j.board, Cost(g))
  }

  /** What holds whatever the prices. */
  ghost predicate Orderly(g: Config, j: Job)
  {
    Running(g, j.board, j.pending) && Books(g, j) && SpentIsCost(g, j)
  }

  lemma SkippedKeeps(g: Config, j: Job, p: NodeId, now: real, i: nat)
    requires Usable(g) && Running(g, j.board, j.pending) && SpentIsCost(g, j)
    requires p !in j.pending && i < |j.board| && Eligible(j.board[i], p)
    ensures Running(g, Skipped(j, p, now, i).board, j.pending) && SpentIsCost(g, Skipped(j, p, now, i))
    ensures forall k :: 0 <= k < |j.board| ==>
              Skipped(j, p, now, i).board[k].inFlight == j.board[k].inFlight && Skipped(j, p, now, i).board[k].items == j.board[k].items
  {
    var c := Failed(Acquired(j.board[i], p), p);
    assert c.inFlight == j.board[i].inFlight;
    SaneAcquired(j.board[i], g.redundancy, g.fp, p);
    SaneFailed(Acquired(j.board[i], p), g.redundancy, g.fp, p);
    SkippedSame(j, p, now, i);
    RunningUpdate(g, j.board, j.pending, i, c, j.pending, p);
    TotalUpdate(j.board, Cost(g), i, c);
  }

  lemma SkippedSame(j: Job, p: NodeId, now: real, i: nat)
    requires i < |j.board| && p !in j.board[i].inFlight
    ensures forall k :: 0 <= k < |j.board| ==>
              Skipped(j, p, now, i).board[k].inFlight == j.board[k].inFlight && Skipped(j, p, now, i).board[k].items == j.board[k].items
  {
    assert Failed(Acquired(j.board[i], p), p).inFlight == j.board[i].inFlight;
  }

  lemma SentKeeps(g: Config, j: Job, p: NodeId, now: real, i: nat)
    requires Usable(g) && Running(g, j.board, j.pending) && SpentIsCost(g, j)
    requires p !in j.pending && i < |j.board| && Eligible(j.board[i], p)
    ensures var j' := Sent(g, j, p, now, i);
            Running(g, j'.board, j'.pending) && SpentIsCost(g, j') && Total(j'.board, Flying()) == |j.pending| + 1
  {
    var j' := Sent(g, j, p, now, i);
    SaneAcquired(j.board[i], g.redundancy, g.fp, p);
    RunningAdd(g, j.board, j.pending, i, Acquired(j.board[i], p), j'.pending[p], p);
    TotalUpdate(j.board, Cost(g), i, Acquired(j.board[i], p));
  }

  /** A request starts: its chunk records the worker and its payment becomes pending. */
  lemma RunningAdd(g: Config, board: seq<Chunk>, pending: map<NodeId, Payment>, i: nat, c: Chunk, pay: Payment, p: NodeId)
    requires Running(g, board, pending) && p !in pending && i < |board| && pay.chunk == i
    requires p !in board[i].inFlight && c.inFlight == board[i].inFlight + {p} && c.items == board[i].items
    requires Sane(c, g.redundancy, g.fp)
    ensures Running(g, board[i := c], pending[p := pay]) && Total(board[i := c], Flying()) == |pending| + 1
  {
    PromiseMore(pending, p, pay);
    RunningUpdate(g, board, pending, i, c, pending[p := pay], p);
  }

  /** Payments stay good when the board keeps their chunks and the ledger keeps their seqs. */
  lemma BooksKept(g: Config, j: Job, j': Job)
    requires Books(g, j) && j'.pending == j.pending && j'.ledger == j.ledger && j.clock <= j'.clock
    requires |j'.board| == |j.board|
    requires forall k :: 0 <= k < |j.board| ==>
               j'.board[k].inFlight == j.board[k].inFlight && j'.board[k].items == j.board[k].items
    ensures Books(g, j')
  {
    forall q | q in j'.pending ensures GoodPayment(g, j', q) {
      assert GoodPayment(g, j, q);
      KeepPayment(g, j, j', q);
    }
  }

  lemma SentBooks(g: Config, j: Job, p: NodeId, now: real, i: nat)
    requires Usable(g) && Books(g, j) && j.clock <= now && p in g.prices
    requires p !in j.pending && i < |j.board| && Eligible(j.board[i], p)
    ensures Books(g, Sent(g, j, p, now, i))
  {
    var j' := Sent(g, j, p, now, i);
    ReserveConsistent(g.rules, j.ledger, g.me.nodeId);
    forall q | q in j'.pending ensures GoodPayment(g, j', q) {
      if q == p {
        SentIsGood(g, j, p, now, i);
      } else {
        SentKeepsPayment(g, j, p, now, i, q);
      }
    }
    SentSeqsDiffer(g, j, p, now, i);
  }

  /** The new payment is good: its seq was just claimed and its time is the present. */
  lemma SentIsGood(g: Config, j: Job, p: NodeId, now: real, i: nat)
    requires Consistent(g.rules, j.ledger) && p in g.prices && i < |j.board|
    ensures GoodPayment(g, Sent(g, j, p, now, i), p)
  {
    ClaimIsOpen(g, j);
    TimeTextValue(now);
  }

  lemma SentSeqsDiffer(g: Config, j: Job, p: NodeId, now: real, i: nat)
    requires Books(g, j) && i < |j.board| && p !in j.pending
    ensures SeqsDiffer(Sent(g, j, p, now, i).pending)
  {
    forall q | q in j.pending ensures SeqOf(j.pending[q].envelope) < ClaimedSeq(j.ledger, g.me.nodeId) {
      assert GoodPayment(g, j, q);
      ClaimIsOpen(g, j);
    }
    OneMoreSeq(j.pending, p, Sent(g, j, p, now, i).pending[p], ClaimedSeq(j.ledger, g.me.nodeId));
  }

  lemma OneMoreSeq(pending: map<NodeId, Payment>, p: NodeId, pay: Payment, s: int)
    requires SeqsDiffer(pending) && p !in pending && SeqOf(pay.envelope) == s
    requires forall q :: q in pending ==> SeqOf(pending[q].envelope) < s
    ensures SeqsDiffer(pending[p := pay])
  {
  }

  lemma SentKeepsPayment(g: Config, j: Job, p: NodeId, now: real, i: nat, q: NodeId)
    requires Books(g, j) && j.clock <= now && i < |j.board| && q in j.pending && q != p
    ensures GoodPayment(g, Sent(g, j, p, now, i), q)
  {
    assert GoodPayment(g, j, q);
    KeepPayment(g, j, Sent(g, j, p, now, i), q);
  }

  /** The request is sent only if the balance covers it on top of everything in flight. */
  lemma SentMoney(g: Config, j: Job, p: NodeId, now: real, i: nat, start: int)
    requires Usable(g) && Orderly(g, j) && Solvent(g, j, start)
    requires p !in j.pending && i < |j.board| && Eligible(j.board[i], p) && Affordable(g, j, p, i)
    requires p in g.prices
    ensures Solvent(g, Sent(g, j, p, now, i), start)
  {
    var j' := Sent(g, j, p, now, i);
    ClaimIsOpen(g, j);
    PromiseMore(j.pending, p, j'.pending[p]);
    SentKeeps(g, j, p, now, i);
    PendingCovered(g, j, j'.board);
    PromisedIsNatural(j.pending);
    if Price(g, j.board[i], p) > 0 {
      MarginNotNegative(g, j'.board, PriceOf(g, p), |j.board[i].items|);
    }
  }

  /** A positive amount means a positive price, and then the margin is not negative. */
  lemma MarginNotNegative(g: Config, board: seq<Chunk>, price: int, items: nat)
    requires Usable(g) && price * items > 0 && price <= g.maxPrice && Total(board, Flying()) >= 0
    ensures g.maxPrice > 0 && SpentPending(g, board) >= 0
  {
    if price <= 0 {
      NegativeProduct(price, items);
    }
    Monotone(0, Total(board, Flying()), 0, g.maxPrice);
    Monotone(0, Total(board, Flying()) * g.maxPrice, 0, g.chunkSize);
  }

  /** The margin covers everything in flight; with only negative prices there is nothing to cover. */
  lemma PendingCovered(g: Config, j: Job, board: seq<Chunk>)
    requires Usable(g) && Running(g, j.board, j.pending) && Books(g, j)
    requires Total(board, Flying()) == |j.pending| + 1
    ensures Promised(j.pending) <= Max(SpentPending(g, board), 0)
  {
    PromisedBound(g, j);
    OneMoreCovers(g, board, |j.pending|, Promised(j.pending));
  }

  lemma OneMoreCovers(g: Config, board: seq<Chunk>, n: nat, promised: int)
    requires Usable(g) && Total(board, Flying()) == n + 1
    requires promised <= n * (Max(g.maxPrice, 0) * g.chunkSize)
    ensures promised <= Max(SpentPending(g, board), 0)
  {
    if g.maxPrice >= 0 {
      Headroom(n, g.maxPrice, g.chunkSize);
    }
  }

  lemma Headroom(k: int, price: int, size: int)
    requires k >= 0 && price >= 0 && size >= 0
    ensures k * (price * size) <= (k + 1) * price * size
  {
    Monotone(0, price, 0, size);
    Distribute(k, 1, price * size);
    assert (k + 1) * price * size == (k + 1) * (price * size);
  }

  /** A request ends: its chunk forgets the worker and its payment is no longer pending. */
  lemma RunningDrop(g: Config, board: seq<Chunk>, pending: map<NodeId, Payment>, c: Chunk, p: NodeId)
    requires Running(g, board, pending) && p in pending && pending[p].chunk < |board|
    requires var was := board[pending[p].chunk];
             p in was.inFlight && c.inFlight == was.inFlight - {p} && c.items == was.items
    requires Sane(c, g.redundancy, g.fp)
    ensures Running(g, board[pending[p].chunk := c], pending - {p})
  {
    PromiseLess(pending, p);
    RunningUpdate(g, board, pending, pending[p].chunk, c, pending - {p}, p);
  }

  lemma AbandonKeeps(g: Config, j: Job, p: NodeId, now: real, lost: int)
    requires Usable(g) && Running(g, j.board, j.pending) && SpentIsCost(g, j) && p in j.pending && GoodPayment(g, j, p)
    ensures var j' := Abandon(j, p, now, lost);
            Running(g, j'.board, j'.pending) && SpentIsCost(g, j')
  {
    var i := j.pending[p].chunk;
    SaneFailed(j.board[i], g.redundancy, g.fp, p);
    RunningDrop(g, j.board, j.pending, Failed(j.board[i], p), p);
    TotalUpdate(j.board, Cost(g), i, Failed(j.board[i], p));
  }

  lemma AbandonBooks(g: Config, j: Job, p: NodeId, now: real, lost: int)
    requires Usable(g) && Books(g, j) && p in j.pending && j.clock <= now
    requires j.pending[p].chunk < |j.board|
    ensures Books(g, Abandon(j, p, now, lost))
  {
    var j' := Abandon(j, p, now, lost);
    forall q | q in j'.pending ensures GoodPayment(g, j', q) {
      assert GoodPayment(g, j, q);
      KeepPayment(g, j, j', q);
    }
  }

  lemma SettleKeeps(g: Config, j: Job, p: NodeId, now: real, results: seq<Json>)
    requires Usable(g) && Running(g, j.board, j.pending) && SpentIsCost(g, j) && p in j.pending && GoodPayment(g, j, p)
    ensures var j' := Settle(g, j, p, now, results);
            Running(g, j'.board, j'.pending) && SpentIsCost(g, j')
  {
    SettleRuns(g, j.board, j.pending, p, results);
    SaneCompleted(j.board[j.pending[p].chunk], g.redundancy, g.fp, p, results);
    SettleCosts(g, j, p, now, results);
  }

  lemma SettleRuns(g: Config, board: seq<Chunk>, pending: map<NodeId, Payment>, p: NodeId, results: seq<Json>)
    requires g.redundancy >= 1 && Running(g, board, pending) && p in pending
    requires pending[p].chunk < |board| && p in board[pending[p].chunk].inFlight
    ensures var i := pending[p].chunk;
            Running(g, board[i := Completed(board[i], g.redundancy, g.fp, p, results)], pending - {p})
  {
    var i := pending[p].chunk;
    SaneCompleted(board[i], g.redundancy, g.fp, p, results);
    RunningDrop(g, board, pending, Completed(board[i], g.redundancy, g.fp, p, results), p);
  }

  lemma SettleCosts(g: Config, j: Job, p: NodeId, now: real, results: seq<Json>)
    requires SpentIsCost(g, j) && p in j.pending && GoodPayment(g, j, p)
    requires var c := j.board[j.pending[p].chunk];
             Completed(c, g.redundancy, g.fp, p, results).votes == c.votes + [Vote(p, results)]
    ensures SpentIsCost(g, Settle(g, j, p, now, results))
  {
    var i := j.pending[p].chunk;
    var c, c' := j.board[i], Completed(j.board[i], g.redundancy, g.fp, p, results);
    TotalUpdate(j.board, Cost(g), i, c');
    VoteCosts(g, c, c', p, results);
  }

  lemma VoteCosts(g: Config, c: Chunk, c': Chunk, p: NodeId, results: seq<Json>)
    requires c'.votes == c.votes + [Vote(p, results)] && c'.items == c.items
    ensures Cost(g)(c') == Cost(g)(c) + Price(g, c, p)
  {
    assert c'.votes[..|c.votes|] == c.votes;
    Distribute(VotePrices(g, c.votes), PriceOf(g, p), |c.items|);
  }

  lemma SettleBooks(g: Config, j: Job, p: NodeId, now: real, results: seq<Json>)
    requires Usable(g) && Books(g, j) && p in j.pending && j.clock <= now
    requires j.pending[p].chunk < |j.board|
    ensures Books(g, Settle(g, j, p, now, results))
  {
    var j' := Settle(g, j, p, now, results);
    AddTxConsistent(g.rules, now, j.ledger, j.pending[p].envelope);
    forall q | q in j'.pending ensures GoodPayment(g, j', q) {
      assert GoodPayment(g, j, q);
      StillOutstanding(g, j, p, now, q);
      SettledKeepsPayment(g, j, p, now, results, q);
    }
  }

  lemma SettledKeepsPayment(g: Config, j: Job, p: NodeId, now: real, results: seq<Json>, q: NodeId)
    requires p in j.pending && j.pending[p].chunk < |j.board| && q in j.pending && q != p
    requires OnBoard(g, j.board, q, j.pending[q])
    requires Outstanding(g, AddTx(g.rules, now, j.ledger, j.pending[p].envelope), now, q, j.pending[q])
    ensures q in Settle(g, j, p, now, results).pending && GoodPayment(g, Settle(g, j, p, now, results), q)
  {
    var i := j.pending[p].chunk;
    var c, l := Completed(j.board[i], g.redundancy, g.fp, p, results), AddTx(g.rules, now, j.ledger, j.pending[p].envelope);
    CompletedShape(j.board[i], g.redundancy, g.fp, p, results);
    SettledParts(g, j, p, now, c, l, q);
  }

  lemma SettledParts(g: Config, j: Job, p: NodeId, now: real, c: Chunk, l: Ledger, q: NodeId)
    requires p in j.pending && j.pending[p].chunk < |j.board| && q in j.pending && q != p
    requires OnBoard(g, j.board, q, j.pending[q])
    requires var was := j.board[j.pending[p].chunk]; c.items == was.items && c.inFlight == was.inFlight - {p}
    requires Outstanding(g, l, now, q, j.pending[q])
    ensures q in SettleWith(j, p, now, c, l).pending && GoodPayment(g, SettleWith(j, p, now, c, l), q)
  {
    StillOnBoard(g, j.board, j.pending[p].chunk, c, p, q, j.pending[q]);
  }

  /** The settled payment occupies only its own seq. */
  lemma StillOutstanding(g: Config, j: Job, p: NodeId, now: real, q: NodeId)
    requires Usable(g) && Books(g, j) && p in j.pending && j.clock <= now && q in j.pending && q != p
    ensures Outstanding(g, AddTx(g.rules, now, j.ledger, j.pending[p].envelope), now, q, j.pending[q])
  {
    assert GoodPayment(g, j, q);
    OwnPaymentApplied(g, j, p, now);
    OtherSeq(g, j, p, q);
    SeqStaysOpen(g, j.ledger, AddTx(g.rules, now, j.ledger, j.pending[p].envelope),
                 SeqOf(j.pending[p].envelope), SeqOf(j.pending[q].envelope));
  }

  lemma SeqStaysOpen(g: Config, before: Ledger, after: Ledger, taken: int, s: int)
    requires OpenSeq(g, before, s) && after.base == before.base && after.reserved == before.reserved && taken != s
    requires forall t :: t in Txs(after) ==> t in Txs(before) || t.seqNo == taken
    ensures OpenSeq(g, after, s)
  {
  }

  lemma StillOnBoard(g: Config, board: seq<Chunk>, i: nat, c: Chunk, p: NodeId, q: NodeId, pay: Payment)
    requires i < |board| && q != p && OnBoard(g, board, q, pay)
    requires c.items == board[i].items && c.inFlight == board[i].inFlight - {p}
    ensures OnBoard(g, board[i := c], q, pay)
  {
  }

  lemma CompletedShape(c: Chunk, redundancy: int, fp: Fingerprint, p: NodeId, value: seq<Json>)
    ensures var c' := Completed(c, redundancy, fp, p, value); c'.items == c.items && c'.inFlight == c.inFlight - {p}
  {
  }

  lemma OtherSeq(g: Config, j: Job, p: NodeId, q: NodeId)
    requires Books(g, j) && p in j.pending && q in j.pending && p != q
    ensures SeqOf(j.pending[p].envelope) != SeqOf(j.pending[q].envelope)
  {
  }

  lemma SettleMoney(g: Config, j: Job, p: NodeId, now: real, results: seq<Json>, start: int)
    requires Usable(g) && Books(g, j) && Solvent(g, j, start)
    requires p in j.pending && j.clock <= now && j.pending[p].chunk < |j.board|
    ensures Solvent(g, Settle(g, j, p, now, results), start)
  {
    assert GoodPayment(g, j, p);
    OwnPaymentApplied(g, j, p, now);
    PaidFromPromise(g, j, p, now, Completed(j.board[j.pending[p].chunk], g.redundancy, g.fp, p, results),
                    AddTx(g.rules, now, j.ledger, j.pending[p].envelope), start);
  }

  lemma PaidFromPromise(g: Config, j: Job, p: NodeId, now: real, c: Chunk, l: Ledger, start: int)
    requires Solvent(g, j, start) && p in j.pending && j.pending[p].chunk < |j.board|
    requires BalanceOf(l, g.me.nodeId) == BalanceOf(j.ledger, g.me.nodeId) - Max(j.pending[p].amount, 0)
    ensures Solvent(g, SettleWith(j, p, now, c, l), start)
  {
    PromiseLess(j.pending, p);
  }

  /** A settled request keeps `spent` equal to the drop of the balance exactly when its amount is not
      negative: the ledger refuses a negative payment, but the job still adds it to `spent`. */
  lemma SpentIsDropExactly(g: Config, j: Job, p: NodeId, now: real, results: seq<Json>, start: int)
    requires Usable(g) && Books(g, j) && SpentIsDrop(g, j, start)
    requires p in j.pending && j.clock <= now && j.pending[p].chunk < |j.board|
    ensures SpentIsDrop(g, Settle(g, j, p, now, results), start) <==> Price(g, j.board[j.pending[p].chunk], p) >= 0
  {
    assert GoodPayment(g, j, p);
    OwnPaymentApplied(g, j, p, now);
  }

  lemma AbandonMoney(g: Config, j: Job, p: NodeId, now: real, lost: int, start: int)
    requires Solvent(g, j, start) && p in j.pending && j.pending[p].chunk < |j.board|
    ensures Solvent(g, Abandon(j, p, now, lost), start)
  {
    PromiseLess(j.pending, p);
  }

  lemma OrderlyDispatch(g: Config, j: Job, p: NodeId, now: real, i: nat)
    requires Usable(g) && Orderly(g, j) && Enabled(g, j, Dispatch(p, now)) && i < |j.board| && Eligible(j.board[i], p)
    ensures Orderly(g, DispatchTo(g, j, p, now, i))
  {
    if Affordable(g, j, p, i) {
      SentKeeps(g, j, p, now, i);
      SentBooks(g, j, p, now, i);
    } else {
      SkippedKeeps(g, j, p, now, i);
      BooksKept(g, j, Skipped(j, p, now, i));
    }
  }

  lemma OrderlyStep(g: Config, j: Job, e: Event)
    requires Usable(g) && Orderly(g, j) && Enabled(g, j, e)
    ensures Orderly(g, Step(g, j, e))
  {
    match e
    case Dispatch(p, now) =>
      FirstEligibleMeans(j.board, p, 0);
      match FirstEligible(j.board, p, 0) {
        case None => BooksKept(g, j, j.(clock := now));
        case Some(i) => OrderlyDispatch(g, j, p, now, i);
      }
    case Unreachable(p, now) =>
      assert GoodPayment(g, j, p);
      AbandonKeeps(g, j, p, now, 0);
      AbandonBooks(g, j, p, now, 0);
    case Refused(p, now) =>
      assert GoodPayment(g, j, p);
      AbandonKeeps(g, j, p, now, j.pending[p].amount);
      AbandonBooks(g, j, p, now, j.pending[p].amount);
    case Settled(p, now, results) =>
      assert GoodPayment(g, j, p);
      SettleKeeps(g, j, p, now, results);
      SettleBooks(g, j, p, now, results);
  }

  /** No event drives the balance below what it must cover, whatever the prices. */
  lemma SolventStep(g: Config, j: Job, e: Event, start: int)
    requires Usable(g) && Orderly(g, j) && Solvent(g, j, start) && Enabled(g, j, e)
    ensures Solvent(g, Step(g, j, e), start)
  {
    match e
    case Dispatch(p, now) =>
      FirstEligibleMeans(j.board, p, 0);
      if FirstEligible(j.board, p, 0).Some? {
        var i := FirstEligible(j.board, p, 0).value;
        if Affordable(g, j, p, i) {
          SentMoney(g, j, p, now, i, start);
        }
      }
    case Unreachable(p, now) => AbandonMoney(g, j, p, now, 0, start);
    case Refused(p, now) => AbandonMoney(g, j, p, now, j.pending[p].amount, start);
    case Settled(p, now, results) => SettleMoney(g, j, p, now, results, start);
  }

  /** With prices that are not negative every event keeps `spent` equal to the drop of the balance. */
  lemma SpentStep(g: Config, j: Job, e: Event, start: int)
    requires Usable(g) && FairPrices(g) && Orderly(g, j) && SpentIsDrop(g, j, start) && Enabled(g, j, e)
    ensures SpentIsDrop(g, Step(g, j, e), start)
  {
    match e
    case Dispatch(p, now) => DispatchCostsNothing(g, j, p, now);
    case Settled(p, now, results) =>
      assert GoodPayment(g, j, p);
      Monotone(0, PriceOf(g, p), 0, |j.board[j.pending[p].chunk].items|);
      SpentIsDropExactly(g, j, p, now, results, start);
    case _ =>
  }

  lemma DispatchCostsNothing(g: Config, j: Job, p: NodeId, now: real)
    requires Consistent(g.rules, j.ledger) && Enabled(g, j, Dispatch(p, now))
    ensures var j' := Step(g, j, Dispatch(p, now));
            && j'.spent == j.spent
            && BalanceOf(j'.ledger, g.me.nodeId) == BalanceOf(j.ledger, g.me.nodeId)
  {
    FirstEligibleMeans(j.board, p, 0);
    ClaimIsOpen(g, j);
  }
}
