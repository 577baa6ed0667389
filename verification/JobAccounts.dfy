/** What every turn of a worker does, spelled out, and where every signed credit of a job is: spent,
    exposed, freed by an unreachable provider, or still in flight. */
module JobAccounts {
  import opened Basics
  import opened Sums
  import opened Wire
  import opened LedgerSpec
  import opened LedgerSteps
  import opened GossipLedgerClass
  import opened Scheduling
  import opened SchedulerRuns
  import opened JobRun
  import opened JobResults

  // ---------------------------------------------------------------- a dispatch

  /** The chunk may be handed to `p`. */
  predicate Open(c: Chunk, p: NodeId)
  {
    && c.accepted == None && p !in c.inFlight && (forall i :: 0 <= i < |c.votes| ==> c.votes[i].provider != p)
    && (p in c.attempts ==> c.attempts[p] < 2) && |c.votes| + |c.inFlight| < c.needed
  }

  /** What is left for `p` when a full chunk at the dearest price is kept back for every request in flight,
      this one included. */
  ghost function Spendable(g: Config, j: Job): int {
    BalanceOf(j.ledger, g.me.nodeId) - FullChunks(|j.pending| + 1, g.maxPrice, g.chunkSize)
  }

  /** With no chunk open to it a worker waits. Otherwise it takes the first, and one attempt is used up:
      either a payment of its price for each item is signed for it under a new seq and is in flight, or the
      credits do not suffice and the worker has three strikes. */
  lemma DispatchExactly(g: Config, j: Job, p: NodeId, now: real)
    requires Usable(g) && Orderly(g, j) && Enabled(g, j, Dispatch(p, now))
    ensures var j' := Step(g, j, Dispatch(p, now));
            && j'.spent == j.spent && j'.exposure == j.exposure && j'.clock == now && |j'.board| == |j.board|
            && ((forall i :: 0 <= i < |j.board| ==> !Open(j.board[i], p)) ==>
                  j'.board == j.board && j'.ledger == j.ledger && j'.pending == j.pending && j'.strikes == j.strikes)
            && forall i: nat :: i < |j.board| && Open(j.board[i], p) && (forall k :: 0 <= k < i ==> !Open(j.board[k], p)) ==>
                 Dispatched(g, j, p, now, i, j')
  {
    FirstEligibleMeans(j.board, p, 0);
    forall i | 0 <= i < |j.board| ensures Open(j.board[i], p) <==> Eligible(j.board[i], p) {
      OpenIsEligible(j.board[i], p);
    }
    if FirstEligible(j.board, p, 0).Some? {
      DispatchedAt(g, j, p, now, FirstEligible(j.board, p, 0).value);
    }
  }

  lemma OpenIsEligible(c: Chunk, p: NodeId)
    ensures Open(c, p) <==> Eligible(c, p)
  {
  }

  /** The price of all items of a chunk. */
  function CostOf(g: Config, p: NodeId, c: Chunk): int
    requires p in g.prices
  {
    PriceFor(g.prices[p], |c.items|)
  }

  ghost predicate Dispatched(g: Config, j: Job, p: NodeId, now: real, i: nat, j': Job)
    requires i < |j.board| && p in g.prices
  {
    && Taken(j, p, i, j')
    && if Spendable(g, j) >= CostOf(g, p, j.board[i]) then Paying(g, j, p, now, i, CostOf(g, p, j.board[i]), j') else StruckOut(j, p, i, j')
  }

  /** One attempt is used up and nothing else changes on the board but who is in flight. */
  ghost predicate Taken(j: Job, p: NodeId, i: nat, j': Job)
    requires i < |j.board|
  {
    var c := j.board[i];
    && |j'.board| == |j.board| && (forall k :: 0 <= k < |j.board| && k != i ==> j'.board[k] == j.board[k])
    && j'.board[i].attempts == c.attempts[p := if p in c.attempts then c.attempts[p] + 1 else 1]
    && j'.board[i].votes == c.votes && j'.board[i].accepted == c.accepted && j'.board[i].needed == c.needed
    && j'.board[i].items == c.items
  }

  ghost predicate Paying(g: Config, j: Job, p: NodeId, now: real, i: nat, cost: int, j': Job)
    requires i < |j.board|
  {
    && |j'.board| == |j.board| && j'.board[i].inFlight == j.board[i].inFlight + {p} && j'.strikes == j.strikes
    && j'.pending.Keys == j.pending.Keys + {p} && (forall q :: q in j.pending && q != p ==> j'.pending[q] == j.pending[q])
    && j'.pending[p].chunk == i && j'.pending[p].amount == cost && PaysFor(g, j.ledger, p, cost, now, j'.pending[p].envelope)
  }

  ghost predicate StruckOut(j: Job, p: NodeId, i: nat, j': Job)
    requires i < |j.board|
  {
    && |j'.board| == |j.board| && j'.board[i].inFlight == j.board[i].inFlight && j'.pending == j.pending && j'.ledger == j.ledger
    && j'.strikes == j.strikes[p := 3]
  }

  /** A transfer from the caller to `p`, signed under a seq beyond all stored and all claimed ones. */
  ghost predicate PaysFor(g: Config, l: Ledger, p: NodeId, cost: int, now: real, e: Envelope)
  {
    && e.Signed? && e.pubkey == g.me.pubkey && e.sig == g.me.sign(e.payload)
    && e.payload.kind == "tx" && e.payload.sender == g.me.nodeId && e.payload.recipient == Some(p)
    && e.payload.amount == Some(Decimal(cost, 6)) && e.payload.seqNo.Some?
    && (forall t :: t in Txs(l) && t.sender == g.me.nodeId ==> t.seqNo < e.payload.seqNo.value)
    && BaseRow(l.base, g.me.nodeId).seqNo < e.payload.seqNo.value
    && (g.me.nodeId in l.reserved ==> l.reserved[g.me.nodeId] < e.payload.seqNo.value)
  }

  lemma DispatchedAt(g: Config, j: Job, p: NodeId, now: real, i: nat)
    requires Usable(g) && Orderly(g, j) && p in g.prices && p !in j.pending && i < |j.board| && Eligible(j.board[i], p)
    ensures Dispatched(g, j, p, now, i, DispatchTo(g, j, p, now, i))
    ensures DispatchTo(g, j, p, now, i).spent == j.spent && DispatchTo(g, j, p, now, i).exposure == j.exposure
    ensures DispatchTo(g, j, p, now, i).clock == now
  {
    AffordableIs(g, j, p, i);
    if Affordable(g, j, p, i) {
      SentExactly(g, j, p, now, i);
    } else {
      SkippedExactly(g, j, p, now, i);
    }
  }

  lemma SentExactly(g: Config, j: Job, p: NodeId, now: real, i: nat)
    requires Consistent(g.rules, j.ledger) && p in g.prices && p !in j.pending && i < |j.board|
    ensures var j' := Sent(g, j, p, now, i); Taken(j, p, i, j') && Paying(g, j, p, now, i, CostOf(g, p, j.board[i]), j')
  {
    PaymentIs(g, j, p, now, i);
  }

  lemma SkippedExactly(g: Config, j: Job, p: NodeId, now: real, i: nat)
    requires p in g.prices && p !in j.pending && i < |j.board| && p !in j.board[i].inFlight
    ensures var j' := Skipped(j, p, now, i); Taken(j, p, i, j') && StruckOut(j, p, i, j')
  {
  }

  /** The margin counts the requests in flight and the one about to be sent. */
  lemma AffordableIs(g: Config, j: Job, p: NodeId, i: nat)
    requires Tracked(j.board, j.pending) && i < |j.board| && p !in j.board[i].inFlight && p in g.prices
    ensures Affordable(g, j, p, i) <==> Spendable(g, j) >= CostOf(g, p, j.board[i])
  {
    InFlightGrows(j, p, i);
  }

  lemma InFlightGrows(j: Job, p: NodeId, i: nat)
    requires Tracked(j.board, j.pending) && i < |j.board| && p !in j.board[i].inFlight
    ensures Total(j.board[i := Acquired(j.board[i], p)], Flying()) == |j.pending| + 1
  {
    TotalUpdate(j.board, Flying(), i, Acquired(j.board[i], p));
  }

  /** The margin in plain numbers. */
  lemma MarginIs(n: int, price: int, size: int)
    ensures FullChunks(n, price, size) == n * price * size
  {
  }

  lemma CostIs(g: Config, p: NodeId, c: Chunk)
    requires p in g.prices
    ensures Price(g, c, p) == CostOf(g, p, c) == g.prices[p] * |c.items|
  {
  }

  lemma PaymentIs(g: Config, j: Job, p: NodeId, now: real, i: nat)
    requires Consistent(g.rules, j.ledger) && p in g.prices && i < |j.board|
    ensures PaysFor(g, j.ledger, p, CostOf(g, p, j.board[i]), now, Sent(g, j, p, now, i).pending[p].envelope)
  {
    MicroCredits(Price(g, j.board[i], p));
  }

  // ---------------------------------------------------------------- an answer

  /** What comes back frees the worker's chunk and payment. No answer and a refusal cost a strike, a
      refusal exposes the amount as well; results clear the strikes, are voted on and paid for. */
  lemma AnswerExactly(g: Config, j: Job, e: Event)
    requires Enabled(g, j, e) && !e.Dispatch?
    ensures var j', p, i := Step(g, j, e), e.worker, j.pending[e.worker].chunk;
            && j'.pending == j.pending - {p} && j'.clock == e.now && |j'.board| == |j.board|
            && (forall k :: 0 <= k < |j.board| && k != i ==> j'.board[k] == j.board[k])
            && j'.board[i].inFlight == j.board[i].inFlight - {p} && j'.board[i].attempts == j.board[i].attempts
            && if e.Settled? then
                 && j'.spent == j.spent + j.pending[p].amount && j'.exposure == j.exposure && j'.strikes == j.strikes[p := 0]
                 && j'.ledger == AddTx(g.rules, e.now, j.ledger, j.pending[p].envelope)
               else
                 && j'.spent == j.spent && j'.ledger == j.ledger && j'.board[i].votes == j.board[i].votes
                 && j'.strikes == j.strikes[p := (if p in j.strikes then j.strikes[p] else 0) + 1]
                 && j'.exposure == j.exposure + if e.Refused? then j.pending[p].amount else 0
  {
    if e.Settled? {
      CompletedShape(j.board[j.pending[e.worker].chunk], g.redundancy, g.fp, e.worker, e.results);
      CompletedAttempts(j.board[j.pending[e.worker].chunk], g.redundancy, g.fp, e.worker, e.results);
    }
  }

  lemma CompletedAttempts(c: Chunk, redundancy: int, fp: Fingerprint, p: NodeId, value: seq<Json>)
    ensures Completed(c, redundancy, fp, p, value).attempts == c.attempts
  {
  }

  /** A settled payment reaches the provider: its earnings and its balance grow by the positive amount. */
  lemma ProviderIsPaid(g: Config, j: Job, p: NodeId, now: real)
    requires Usable(g) && Consistent(g.rules, j.ledger) && p in j.pending && GoodPayment(g, j, p) && j.clock <= now
    ensures var after := AddTx(g.rules, now, j.ledger, j.pending[p].envelope);
            && EarnedOf(after, p) == EarnedOf(j.ledger, p) + Max(g.prices[p] * |j.board[j.pending[p].chunk].items|, 0)
            && BalanceOf(after, p) == BalanceOf(j.ledger, p) + Max(g.prices[p] * |j.board[j.pending[p].chunk].items|, 0)
  {
    var pay := j.pending[p];
    var e := pay.envelope;
    MicroCredits(pay.amount);
    assert e.payload.amount == Some(Decimal(pay.amount, 6));
    AddTxEffect(g.rules, now, j.ledger, e);
    if pay.amount > 0 {
      var t := TxOf(g.rules, e.payload);
      assert Valid(g.rules, now, e);
      FreshSlotMoves(j.ledger, AddTx(g.rules, now, j.ledger, e), t, p);
    }
  }

  // ---------------------------------------------------------------- strikes

  /** A worker with three strikes has done its last turn: nothing is ever in flight for it again. */
  lemma {:induction false} ThreeStrikesAreFinal(g: Config, items: seq<Json>, js: seq<Job>, es: seq<Event>, i: nat, k: nat, p: NodeId)
    requires Execution(g, items, js, es) && i <= k < |js|
    requires p !in js[i].pending && p in js[i].strikes && js[i].strikes[p] >= 3
    ensures p !in js[k].pending && p in js[k].strikes && js[k].strikes[p] == js[i].strikes[p]
    ensures forall n :: i <= n < k ==> es[n].worker != p
    decreases k
  {
    if i < k {
      ThreeStrikesAreFinal(g, items, js, es, i, k - 1, p);
      assert Follows(g, js[k - 1], es[k - 1], js[k]);
      StaysStruckOut(g, js[k - 1], es[k - 1], p);
    }
  }

  lemma StaysStruckOut(g: Config, j: Job, e: Event, p: NodeId)
    requires Enabled(g, j, e) && p !in j.pending && p in j.strikes && j.strikes[p] >= 3
    ensures e.worker != p
    ensures var j' := Step(g, j, e); p !in j'.pending && p in j'.strikes && j'.strikes[p] == j.strikes[p]
  {
    if e.Dispatch? {
      FirstEligibleMeans(j.board, e.worker, 0);
    }
  }

  // ---------------------------------------------------------------- where the credits are

  /** All signed amounts in flight. */
  function Amounts(pending: map<NodeId, Payment>): NodeId -> int {
    (p: NodeId) => if p in pending then pending[p].amount else 0
  }

  ghost function InFlight(pending: map<NodeId, Payment>): int {
    Sum(pending.Keys, Amounts(pending))
  }

  /** What one event signs, and what an unreachable provider frees. */
  ghost function SignedAt(g: Config, j: Job, e: Event): int
    requires Enabled(g, j, e)
  {
    if e.Dispatch? && e.worker in Step(g, j, e).pending then Step(g, j, e).pending[e.worker].amount else 0
  }

  function FreedAt(j: Job, e: Event): int {
    if e.Unreachable? && e.worker in j.pending then j.pending[e.worker].amount else 0
  }

  ghost function Signed(g: Config, js: seq<Job>, es: seq<Event>, k: nat): int
    requires k <= |es| && |js| == |es| + 1 && forall n :: 0 <= n < |es| ==> Follows(g, js[n], es[n], js[n + 1])
  {
    if k == 0 then 0 else assert Follows(g, js[k - 1], es[k - 1], js[k]); Signed(g, js, es, k - 1) + SignedAt(g, js[k - 1], es[k - 1])
  }

  function Freed(js: seq<Job>, es: seq<Event>, k: nat): int
    requires k <= |es| && |js| == |es| + 1
  {
    if k == 0 then 0 else Freed(js, es, k - 1) + FreedAt(js[k - 1], es[k - 1])
  }

  lemma AmountMore(pending: map<NodeId, Payment>, p: NodeId, pay: Payment)
    requires p !in pending
    ensures InFlight(pending[p := pay]) == InFlight(pending) + pay.amount
  {
    var more := pending[p := pay];
    assert more.Keys - {p} == pending.Keys;
    SumPick(more.Keys, Amounts(more), p);
    SumEqual(pending.Keys, Amounts(more), Amounts(pending));
  }

  lemma AmountLess(pending: map<NodeId, Payment>, p: NodeId)
    requires p in pending
    ensures InFlight(pending - {p}) == InFlight(pending) - pending[p].amount
  {
    var fewer := pending - {p};
    assert fewer.Keys == pending.Keys - {p};
    SumPick(pending.Keys, Amounts(pending), p);
    SumEqual(fewer.Keys, Amounts(fewer), Amounts(pending));
  }

  lemma CreditsMove(g: Config, j: Job, e: Event)
    requires Enabled(g, j, e)
    ensures var j' := Step(g, j, e);
            j'.spent + j'.exposure + InFlight(j'.pending) + FreedAt(j, e)
              == j.spent + j.exposure + InFlight(j.pending) + SignedAt(g, j, e)
  {
    match e
    case Dispatch(p, now) => CreditsSigned(g, j, p, now);
    case _ => AmountLess(j.pending, e.worker);
  }

  lemma CreditsSigned(g: Config, j: Job, p: NodeId, now: real)
    requires Enabled(g, j, Dispatch(p, now))
    ensures var j' := Step(g, j, Dispatch(p, now));
            j'.spent == j.spent && j'.exposure == j.exposure
            && InFlight(j'.pending) == InFlight(j.pending) + if p in j'.pending then j'.pending[p].amount else 0
  {
    FirstEligibleMeans(j.board, p, 0);
    if FirstEligible(j.board, p, 0).Some? {
      var i := FirstEligible(j.board, p, 0).value;
      AmountMore(j.pending, p, Sent(g, j, p, now, i).pending[p]);
    }
  }

  /** At every step of every execution each signed credit is accounted for exactly once. */
  lemma {:induction false} EveryCreditAccounted(g: Config, items: seq<Json>, js: seq<Job>, es: seq<Event>, k: nat)
    requires Execution(g, items, js, es) && k <= |es|
    ensures Signed(g, js, es, k) == js[k].spent + js[k].exposure + InFlight(js[k].pending) + Freed(js, es, k)
  {
    if k == 0 {
      assert js[0].pending.Keys == {};
    } else {
      EveryCreditAccounted(g, items, js, es, k - 1);
      CreditsMoved(g, js[k - 1], es[k - 1], js[k]);
    }
  }

  lemma CreditsMoved(g: Config, j: Job, e: Event, j': Job)
    requires Follows(g, j, e, j')
    ensures Enabled(g, j, e)
    ensures j'.spent + j'.exposure + InFlight(j'.pending) + FreedAt(j, e)
              == j.spent + j.exposure + InFlight(j.pending) + SignedAt(g, j, e)
  {
    CreditsMove(g, j, e);
  }

  // ---------------------------------------------------------------- admission

  /** A job is admitted exactly if there is something to do, enough different providers for the redundancy,
      and a balance that covers every item at the lowest price and full redundancy. */
  lemma AdmittedExactly(g: Config, items: seq<Json>, l: Ledger, now: real, minPrice: int)
    requires g.chunkSize >= 1
    ensures Admit(g, items, l, now, minPrice).Admitted? <==>
              && items != [] && 1 <= g.redundancy <= |g.prices|
              && BalanceOf(l, g.me.nodeId) >= minPrice * |items| * g.redundancy
    ensures Admit(g, items, l, now, minPrice).NothingToDo? <==> items == []
  {
  }
}
