/** The worker loop of a job over the real scheduler and ledger objects, one method for each piece
    between two waits. */
module JobRunning {
  import opened Wire
  import opened LedgerSpec
  import opened LedgerSteps
  import opened GossipLedgerClass
  import opened Scheduling
  import opened SchedulerRuns
  import opened JobRun

  class JobRunner {
    const config: Config
    const ledger: GossipLedger
    const scheduler: Scheduler
    var clock: real
    var pending: map<NodeId, Payment>
    var strikes: map<NodeId, int>
    var spent: int
    var exposure: int

    function State(): Job
      reads this, scheduler, ledger
    {
      Job(scheduler.chunks, ledger.State(), clock, pending, strikes, spent, exposure)
    }

    /** The parts are sound and belong together. `OrderlyStep` says that every step below keeps the
        books of the whole job in order as well. */
    ghost predicate Valid()
      reads this, scheduler, ledger
    {
      && scheduler.Valid() && ledger.Valid()
      && scheduler.redundancy == config.redundancy && scheduler.fp == config.fp && ledger.rules == config.rules
    }

    /** `p` has a request in flight. */
    ghost predicate Busy(p: NodeId)
      reads this, scheduler
    {
      p in pending && pending[p].chunk < |scheduler.chunks| && p in scheduler.chunks[pending[p].chunk].inFlight
    }

    constructor (config: Config, ledger: GossipLedger, scheduler: Scheduler, now: real)
      requires Usable(config) && ledger.Valid() && scheduler.Valid()
      requires scheduler.redundancy == config.redundancy && scheduler.fp == config.fp && ledger.rules == config.rules
      requires forall i :: 0 <= i < |scheduler.chunks| ==>
                 scheduler.chunks[i] == Fresh(scheduler.chunks[i].items, config.redundancy)
                 && |scheduler.chunks[i].items| <= config.chunkSize
      ensures Valid() && Orderly(config, State())
      ensures this.config == config && this.ledger == ledger && this.scheduler == scheduler
      ensures State() == Job(scheduler.chunks, ledger.State(), now, map[], map[], 0, 0)
    {
      this.config, this.ledger, this.scheduler, clock := config, ledger, scheduler, now;
      pending, strikes, spent, exposure := map[], map[], 0, 0;
      new;
      FreshTotals(config, scheduler.chunks);
    }

    /** `in_flight * max_price * chunk_size`. */
    method PendingMargin() returns (margin: int)
      ensures margin == SpentPending(config, scheduler.chunks)
    {
      var inFlight := 0;
      for i := 0 to |scheduler.chunks|
        invariant inFlight == Total(scheduler.chunks[..i], Flying())
      {
        assert scheduler.chunks[..i + 1][..i] == scheduler.chunks[..i];
        inFlight := inFlight + |scheduler.chunks[i].inFlight|;
      }
      assert scheduler.chunks[..|scheduler.chunks|] == scheduler.chunks;
      margin := inFlight * config.maxPrice * config.chunkSize;
    }

    /** From the loop head to the sent request, or to the next wait if there is nothing to send. */
    method SendNext(p: NodeId, now: real) returns (request: Option<Payment>)
      requires Valid() && Enabled(config, State(), Dispatch(p, now))
      modifies this, scheduler, ledger
      ensures Valid() && State() == Step(config, old(State()), Dispatch(p, now))
      ensures request.Some? <==> p in pending
      ensures request.Some? ==> pending[p] == request.value
    {
      FirstEligibleMeans(scheduler.chunks, p, 0);
      clock := now;
      var chunk := scheduler.Acquire(p);
      if chunk.None? {
        return None;
      }
      request := SendTo(p, now, chunk.value);
    }

    /** The chunk is held: either the credits do not suffice and the worker stops, or it pays and sends. */
    method SendTo(p: NodeId, now: real, i: nat) returns (request: Option<Payment>)
      requires Valid() && p !in pending && i < |scheduler.chunks| && p in scheduler.chunks[i].inFlight
      modifies this, scheduler, ledger
      ensures Valid() && clock == old(clock) && spent == old(spent) && exposure == old(exposure)
      ensures var board, c := old(scheduler.chunks), old(scheduler.chunks)[i];
              if BalanceOf(old(ledger.State()), config.me.nodeId) - SpentPending(config, board) < Price(config, c, p) then
                && request == None && scheduler.chunks == board[i := Failed(c, p)] && ledger.State() == old(ledger.State())
                && pending == old(pending) && strikes == old(strikes)[p := MAX_PROVIDER_STRIKES]
              else
                && scheduler.chunks == board && ledger.State() == ReserveSeq(old(ledger.State()), config.me.nodeId)
                && strikes == old(strikes) && request == Some(Payment(i, Price(config, c, p), Seal(config.me,
                     TxPayload(config.me, p, Credits(Price(config, c, p)), ClaimedSeq(old(ledger.State()), config.me.nodeId), TimeText(now)))))
                && pending == old(pending)[p := request.value]
    {
      var amount := Price(config, scheduler.chunks[i], p);
      var balance := ledger.Balance(config.me.nodeId);
      var margin := PendingMargin();
      if balance - margin < amount {
        scheduler.Fail(i, p);
        strikes := strikes[p := MAX_PROVIDER_STRIKES];
        return None;
      }
      var envelope := ledger.MakeTx(config.me, p, Credits(amount), now);
      pending := pending[p := Payment(i, amount, envelope)];
      return Some(Payment(i, amount, envelope));
    }

    method GiveUp(p: NodeId, now: real, lost: int)
      requires Valid() && Busy(p)
      modifies this, scheduler
      ensures Valid() && State() == Abandon(old(State()), p, now, lost)
    {
      clock := now;
      scheduler.Fail(pending[p].chunk, p);
      strikes := strikes[p := (if p in strikes then strikes[p] else 0) + 1];
      exposure := exposure + lost;
      pending := pending - {p};
    }

    method OnUnreachable(p: NodeId, now: real)
      requires Valid() && Busy(p) && Enabled(config, State(), Unreachable(p, now))
      modifies this, scheduler
      ensures Valid() && State() == Step(config, old(State()), Unreachable(p, now))
    {
      GiveUp(p, now, 0);
    }

    /** A refusal, and also a reply of the wrong shape or one that does not decrypt. */
    method OnRefused(p: NodeId, now: real)
      requires Valid() && Busy(p) && Enabled(config, State(), Refused(p, now))
      modifies this, scheduler
      ensures Valid() && State() == Step(config, old(State()), Refused(p, now))
    {
      GiveUp(p, now, pending[p].amount);
    }

    /** The payment is put in force before the vote is counted. */
    method OnResults(p: NodeId, now: real, results: seq<Json>) returns (losers: set<NodeId>)
      requires Valid() && Busy(p) && Enabled(config, State(), Settled(p, now, results))
      modifies this, scheduler, ledger
      ensures Valid() && State() == Step(config, old(State()), Settled(p, now, results))
    {
      var pay := pending[p];
      clock := now;
      strikes := strikes[p := 0];
      var _ := ledger.Add(now, pay.envelope);
      spent := spent + pay.amount;
      pending := pending - {p};
      losers := scheduler.Complete(pay.chunk, p, results);
    }
  }

  /** In an orderly job every pending payment has its request in flight. */
  lemma PendingIsBusy(r: JobRunner, p: NodeId)
    requires Orderly(r.config, r.State()) && p in r.pending
    ensures r.Busy(p)
  {
    assert GoodPayment(r.config, r.State(), p);
  }
}
