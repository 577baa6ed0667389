/** Whole jobs: cutting items into chunks, running them to the end, and putting the accepted results
    back in order. */
module JobResults {
  import opened Basics
  import opened Wire
  import opened LedgerSpec
  import opened LedgerSteps
  import opened Scheduling
  import opened SchedulerRuns
  import opened JobRun

  // ---------------------------------------------------------------- cutting and gluing

  function Cut(items: seq<Json>, size: int): seq<seq<Json>>
    requires size >= 1
    decreases |items|
  {
    if items == [] then []
    else if |items| <= size then [items]
    else [items[..size]] + Cut(items[size..], size)
  }

  function Glue(parts: seq<seq<Json>>): seq<Json> {
    if parts == [] then [] else parts[0] + Glue(parts[1..])
  }

  function Apply(f: Json -> Json, items: seq<Json>): seq<Json> {
    seq(|items|, i requires 0 <= i < |items| => f(items[i]))
  }

  function ApplyEach(f: Json -> Json, parts: seq<seq<Json>>): seq<seq<Json>> {
    seq(|parts|, i requires 0 <= i < |parts| => Apply(f, parts[i]))
  }

  lemma {:induction false} CutPieces(items: seq<Json>, size: int)
    requires size >= 1
    ensures Glue(Cut(items, size)) == items
    ensures forall i :: 0 <= i < |Cut(items, size)| ==> 1 <= |Cut(items, size)[i]| <= size
    decreases |items|
  {
    if |items| > size {
      CutPieces(items[size..], size);
      GlueFirst(items[..size], Cut(items[size..], size));
      assert items[..size] + items[size..] == items;
    } else if items != [] {
      GlueFirst(items, []);
    }
  }

  /** All pieces but the last are full. */
  lemma {:induction false} PiecesAreFull(items: seq<Json>, size: int)
    requires size >= 1
    ensures forall i :: 0 <= i < |Cut(items, size)| - 1 ==> |Cut(items, size)[i]| == size
    ensures items != [] ==> Cut(items, size) != []
    decreases |items|
  {
    if |items| > size {
      PiecesAreFull(items[size..], size);
    }
  }

  lemma GlueFirst(first: seq<Json>, rest: seq<seq<Json>>)
    ensures Glue([first] + rest) == first + Glue(rest)
  {
    assert ([first] + rest)[1..] == rest;
  }

  /** Mapping chunk by chunk and gluing is mapping everything. */
  lemma {:induction false} GlueApply(f: Json -> Json, parts: seq<seq<Json>>)
    ensures Glue(ApplyEach(f, parts)) == Apply(f, Glue(parts))
  {
    if parts != [] {
      GlueApply(f, parts[1..]);
      assert ApplyEach(f, parts)[1..] == ApplyEach(f, parts[1..]);
      assert Apply(f, parts[0] + Glue(parts[1..])) == Apply(f, parts[0]) + Apply(f, Glue(parts[1..]));
    }
  }

  function NewBoard(items: seq<Json>, size: int, redundancy: int): seq<Chunk>
    requires size >= 1
  {
    var work := Cut(items, size);
    seq(|work|, i requires 0 <= i < |work| => Fresh(work[i], redundancy))
  }

  function Pieces(board: seq<Chunk>): seq<seq<Json>> {
    seq(|board|, i requires 0 <= i < |board| => board[i].items)
  }

  /** The report of a finished job, or nothing while some chunk is undecided. */
  function Assemble(board: seq<Chunk>): Option<seq<Json>>
  {
    if Finished(board)
    then Some(Glue(seq(|board|, i requires 0 <= i < |board| => board[i].accepted.value)))
    else None
  }

  // ---------------------------------------------------------------- admission

  datatype Admission = NothingToDo | Rejected | Admitted(job: Job)

  ghost predicate IsMinPrice(g: Config, m: int) {
    (exists p :: p in g.prices && g.prices[p] == m) && forall p :: p in g.prices ==> m <= g.prices[p]
  }

  /** The checks before any worker starts; `minPrice` is the lowest advertised price. */
  ghost function Admit(g: Config, items: seq<Json>, l: Ledger, now: real, minPrice: int): Admission
    requires g.chunkSize >= 1
  {
    if items == [] then NothingToDo
    else if g.redundancy < 1 || |g.prices| == 0 || g.redundancy > |g.prices| then Rejected
    else if BalanceOf(l, g.me.nodeId) < minPrice * |items| * g.redundancy then Rejected
    else Admitted(Job(NewBoard(items, g.chunkSize, g.redundancy), l, now, map[], map[], 0, 0))
  }

  /** An admitted job begins as the executions below do, with a balance that is not negative. */
  lemma AdmittedBegins(g: Config, items: seq<Json>, l: Ledger, now: real, minPrice: int)
    requires Consistent(g.rules, l) && g.chunkSize >= 1 && IsMinPrice(g, minPrice)
    requires Admit(g, items, l, now, minPrice).Admitted?
    ensures var j := Admit(g, items, l, now, minPrice).job;
            Begins(g, j, items) && g.redundancy >= 1 && (FairPrices(g) ==> BalanceOf(j.ledger, g.me.nodeId) >= 0)
  {
    if FairPrices(g) {
      Monotone(0, minPrice, 0, |items|);
      Monotone(0, minPrice * |items|, 0, g.redundancy);
    }
  }

  // ---------------------------------------------------------------- whole runs

  ghost predicate Begins(g: Config, j: Job, items: seq<Json>)
    requires g.chunkSize >= 1
  {
    && j.board == NewBoard(items, g.chunkSize, g.redundancy)
    && Consistent(g.rules, j.ledger)
    && j.pending == map[] && j.spent == 0 && j.exposure == 0
  }

  ghost predicate Follows(g: Config, j: Job, e: Event, j': Job) {
    Enabled(g, j, e) && j' == Step(g, j, e)
  }

  ghost predicate Execution(g: Config, items: seq<Json>, js: seq<Job>, es: seq<Event>)
  {
    && g.chunkSize >= 1 && |js| == |es| + 1 && Begins(g, js[0], items)
    && forall k :: 0 <= k < |es| ==> Follows(g, js[k], es[k], js[k + 1])
  }

  lemma BeginsOrderly(g: Config, j: Job, items: seq<Json>)
    requires Usable(g) && Begins(g, j, items)
    ensures Orderly(g, j) && Pieces(j.board) == Cut(items, g.chunkSize)
  {
    CutPieces(items, g.chunkSize);
    forall i | 0 <= i < |j.board| ensures Sane(j.board[i], g.redundancy, g.fp) {
      SaneFresh(j.board[i].items, g.redundancy, g.fp);
    }
    FreshTotals(g, j.board);
  }

  lemma StepKeepsPieces(g: Config, j: Job, e: Event)
    requires Enabled(g, j, e)
    ensures Pieces(Step(g, j, e).board) == Pieces(j.board)
  {
    match e
    case Dispatch(p, now) => FirstEligibleMeans(j.board, p, 0);
    case _ =>
  }

  /** A property of the first job that every step keeps holds throughout. */
  lemma {:induction false} Always(g: Config, items: seq<Json>, js: seq<Job>, es: seq<Event>, inv: Job -> bool, k: nat)
    requires Execution(g, items, js, es) && k < |js|
    requires inv(js[0]) && forall j, e, j' :: inv(j) && Follows(g, j, e, j') ==> inv(j')
    ensures inv(js[k])
  {
    if k > 0 {
      Always(g, items, js, es, inv, k - 1);
      assert Follows(g, js[k - 1], es[k - 1], js[k]);
    }
  }

  lemma AlwaysOrderly(g: Config, items: seq<Json>, js: seq<Job>, es: seq<Event>, k: nat)
    requires Usable(g) && Execution(g, items, js, es) && k < |js|
    ensures Orderly(g, js[k]) && Pieces(js[k].board) == Cut(items, g.chunkSize)
  {
    var inv := (j: Job) => Orderly(g, j) && Pieces(j.board) == Cut(items, g.chunkSize);
    BeginsOrderly(g, js[0], items);
    forall j, e, j' | inv(j) && Follows(g, j, e, j') ensures inv(j') {
      OrderlyStep(g, j, e);
      StepKeepsPieces(g, j, e);
    }
    Always(g, items, js, es, inv, k);
  }

  lemma AlwaysSolvent(g: Config, items: seq<Json>, js: seq<Job>, es: seq<Event>, k: nat)
    requires Usable(g) && Execution(g, items, js, es) && k < |js|
    ensures Solvent(g, js[k], BalanceOf(js[0].ledger, g.me.nodeId))
  {
    var start := BalanceOf(js[0].ledger, g.me.nodeId);
    var inv := (j: Job) => Orderly(g, j) && Solvent(g, j, start);
    BeginsOrderly(g, js[0], items);
    assert js[0].pending.Keys == {};
    forall j, e, j' | inv(j) && Follows(g, j, e, j') ensures inv(j') {
      OrderlyStep(g, j, e);
      SolventStep(g, j, e, start);
    }
    Always(g, items, js, es, inv, k);
  }

  lemma SpentIsAlwaysDrop(g: Config, items: seq<Json>, js: seq<Job>, es: seq<Event>, k: nat)
    requires Usable(g) && FairPrices(g) && Execution(g, items, js, es) && k < |js|
    ensures SpentIsDrop(g, js[k], BalanceOf(js[0].ledger, g.me.nodeId))
  {
    var start := BalanceOf(js[0].ledger, g.me.nodeId);
    var inv := (j: Job) => Orderly(g, j) && SpentIsDrop(g, j, start);
    BeginsOrderly(g, js[0], items);
    forall j, e, j' | inv(j) && Follows(g, j, e, j') ensures inv(j') {
      OrderlyStep(g, j, e);
      SpentStep(g, j, e, start);
    }
    Always(g, items, js, es, inv, k);
  }

  // ---------------------------------------------------------------- money

  lemma {:induction false} VotePricesBound(g: Config, votes: seq<Vote>)
    requires Usable(g)
    ensures VotePrices(g, votes) <= |votes| * Max(g.maxPrice, 0)
  {
    if votes != [] {
      VotePricesBound(g, votes[..|votes| - 1]);
      Distribute(|votes| - 1, 1, Max(g.maxPrice, 0));
    }
  }

  /** The dearest a job may get per item. */
  function ItemCap(g: Config): int {
    (g.redundancy + MAX_EXTRA_ROUNDS) * Max(g.maxPrice, 0)
  }

  lemma CostBound(g: Config, board: seq<Chunk>)
    requires Usable(g) && AllSane(board, g.redundancy, g.fp)
    ensures Total(board, Cost(g)) <= ItemCap(g) * Total(board, Size())
  {
    forall i | 0 <= i < |board| ensures Cost(g)(board[i]) <= ItemCap(g) * |board[i].items| {
      assert Sane(board[i], g.redundancy, g.fp);
      ChunkCostBound(g, board[i]);
    }
    TotalBound(board, Cost(g), ItemCap(g));
  }

  lemma {:induction false} TotalBound(board: seq<Chunk>, f: Chunk -> int, cap: int)
    requires forall i :: 0 <= i < |board| ==> f(board[i]) <= cap * |board[i].items|
    ensures Total(board, f) <= cap * Total(board, Size())
  {
    if board != [] {
      var front, c := board[..|board| - 1], board[|board| - 1];
      TotalBound(front, f, cap);
      Distribute(Total(front, Size()), |c.items|, cap);
    }
  }

  lemma ChunkCostBound(g: Config, c: Chunk)
    requires Usable(g) && Sane(c, g.redundancy, g.fp)
    ensures Cost(g)(c) <= ItemCap(g) * |c.items|
  {
    VotePricesBound(g, c.votes);
    Monotone(|c.votes|, g.redundancy + MAX_EXTRA_ROUNDS, Max(g.maxPrice, 0), Max(g.maxPrice, 0));
    Scaled(VotePrices(g, c.votes), ItemCap(g), |c.items|);
  }

  lemma {:induction false} SizeOfPieces(board: seq<Chunk>)
    ensures Total(board, Size()) == |Glue(Pieces(board))|
  {
    if board != [] {
      var front, c := board[..|board| - 1], board[|board| - 1];
      SizeOfPieces(front);
      assert Pieces(board) == Pieces(front) + [c.items];
      GlueAppend(Pieces(front), c.items);
    }
  }

  lemma {:induction false} GlueAppend(parts: seq<seq<Json>>, last: seq<Json>)
    ensures Glue(parts + [last]) == Glue(parts) + last
  {
    if parts == [] {
      assert Glue([last]) == last + Glue([]);
    } else {
      assert (parts + [last])[1..] == parts[1..] + [last];
      GlueAppend(parts[1..], last);
    }
  }

  /** At every step of every execution, at any prices: the local balance covers all signed requests in
      flight that can take something from it, it is not driven below zero, `spent` stays within
      `redundancy + 2` times the dearest price per item, and no provider is asked for a chunk more than
      twice. If no price is negative, `spent` is exactly what the balance has lost. */
  lemma JobStaysSolvent(g: Config, items: seq<Json>, js: seq<Job>, es: seq<Event>, k: nat)
    requires Usable(g) && Execution(g, items, js, es) && k < |js|
    ensures Promised(js[k].pending) <= Max(BalanceOf(js[k].ledger, g.me.nodeId), 0)
    ensures var start := BalanceOf(js[0].ledger, g.me.nodeId);
            BalanceOf(js[k].ledger, g.me.nodeId) >= if start < 0 then start else 0
    ensures FairPrices(g) ==>
              js[k].spent == BalanceOf(js[0].ledger, g.me.nodeId) - BalanceOf(js[k].ledger, g.me.nodeId)
    ensures js[k].spent <= ((g.redundancy + MAX_EXTRA_ROUNDS) * Max(g.maxPrice, 0)) * |items|
    ensures forall i, p :: 0 <= i < |js[k].board| ==> Attempts(js[k].board[i], p) <= MAX_ATTEMPTS_PER_PROVIDER
  {
    AlwaysSolvent(g, items, js, es, k);
    if FairPrices(g) {
      SpentIsAlwaysDrop(g, items, js, es, k);
    }
    SpentBound(g, items, js, es, k);
    AttemptsBound(g, items, js, es, k);
  }

  lemma SpentBound(g: Config, items: seq<Json>, js: seq<Job>, es: seq<Event>, k: nat)
    requires Usable(g) && Execution(g, items, js, es) && k < |js|
    ensures js[k].spent <= ItemCap(g) * |items|
  {
    AlwaysOrderly(g, items, js, es, k);
    CostBound(g, js[k].board);
    SizeOfPieces(js[k].board);
    CutPieces(items, g.chunkSize);
  }

  lemma AttemptsBound(g: Config, items: seq<Json>, js: seq<Job>, es: seq<Event>, k: nat)
    requires Usable(g) && Execution(g, items, js, es) && k < |js|
    ensures forall i, p :: 0 <= i < |js[k].board| ==> Attempts(js[k].board[i], p) <= MAX_ATTEMPTS_PER_PROVIDER
  {
    AlwaysOrderly(g, items, js, es, k);
    forall i, p | 0 <= i < |js[k].board| ensures Attempts(js[k].board[i], p) <= MAX_ATTEMPTS_PER_PROVIDER {
      assert Sane(js[k].board[i], g.redundancy, g.fp);
    }
  }

  // ---------------------------------------------------------------- results

  /** Votes for anything but the right answer. */
  function WrongVotes(votes: seq<Vote>, right: seq<Json>): nat
  {
    if votes == [] then 0
    else WrongVotes(votes[..|votes| - 1], right) + if votes[|votes| - 1].value != right then 1 else 0
  }

  lemma {:induction false} WrongCount(votes: seq<Vote>, fp: Fingerprint, right: seq<Json>, f: nat)
    requires f != fp(right)
    ensures Count(votes, fp, f) <= WrongVotes(votes, right)
  {
    if votes != [] {
      WrongCount(votes[..|votes| - 1], fp, right, f);
    }
  }

  ghost predicate InjectivePrint(fp: Fingerprint) {
    forall a, b :: fp(a) == fp(b) ==> a == b
  }

  /** With wrong votes in the minority, only the right answer can be accepted. */
  lemma AcceptedIsRight(c: Chunk, redundancy: int, fp: Fingerprint, right: seq<Json>)
    requires redundancy >= 1 && Sane(c, redundancy, fp) && InjectivePrint(fp) && c.accepted.Some?
    requires WrongVotes(c.votes, right) < Majority(redundancy)
    ensures c.accepted == Some(right)
  {
    var k: nat :| Decided(c, fp, Majority(redundancy), k);
    if fp(c.votes[k].value) != fp(right) {
      WrongCount(c.votes, fp, right, fp(c.votes[k].value));
    }
  }

  ghost predicate MinorityWrong(g: Config, board: seq<Chunk>, f: Json -> Json)
  {
    forall i :: 0 <= i < |board| ==> WrongVotes(board[i].votes, Apply(f, board[i].items)) < Majority(g.redundancy)
  }

  /** A job that returns, with wrong providers in the minority on every chunk, returns the
      job's function mapped over the items in order, whatever the chunk size and the interleaving. */
  lemma JobReturnsTheTask(g: Config, items: seq<Json>, js: seq<Job>, es: seq<Event>, f: Json -> Json)
    requires Usable(g) && InjectivePrint(g.fp) && Execution(g, items, js, es)
    requires MinorityWrong(g, js[|es|].board, f) && Assemble(js[|es|].board).Some?
    ensures Assemble(js[|es|].board) == Some(Apply(f, items))
  {
    var board := js[|es|].board;
    AlwaysOrderly(g, items, js, es, |es|);
    forall i | 0 <= i < |board| ensures board[i].accepted == Some(Apply(f, board[i].items)) {
      AcceptedIsRight(board[i], g.redundancy, g.fp, Apply(f, board[i].items));
    }
    assert seq(|board|, i requires 0 <= i < |board| => board[i].accepted.value) == ApplyEach(f, Pieces(board));
    CutPieces(items, g.chunkSize);
    GlueApply(f, Pieces(board));
  }

  // ---------------------------------------------------------------- pipelines

  /** One stage as it ran: its job from admission to the report. */
  datatype StageRun = StageRun(config: Config, task: Json -> Json, jobs: seq<Job>, events: seq<Event>)

  /** The stage's job ran over `items` and reported `results`; without items there is no job at all. */
  ghost predicate StageReports(s: StageRun, items: seq<Json>, results: seq<Json>)
  {
    if items == [] then results == []
    else
      && Usable(s.config) && InjectivePrint(s.config.fp) && Execution(s.config, items, s.jobs, s.events)
      && Assemble(s.jobs[|s.events|].board) == Some(results)
  }

  /** On every chunk of the stage the wrong answers were in the minority. */
  ghost predicate StageHonest(s: StageRun) {
    |s.jobs| == |s.events| + 1 ==> MinorityWrong(s.config, s.jobs[|s.events|].board, s.task)
  }

  /** Each stage starts from what the one before it reported. */
  ghost predicate PipelineRun(runs: seq<StageRun>, parts: seq<seq<Json>>)
  {
    |parts| == |runs| + 1 && forall k :: 0 <= k < |runs| ==> StageReports(runs[k], parts[k], parts[k + 1])
  }

  function Compose(runs: seq<StageRun>, item: Json): Json
  {
    if runs == [] then item else runs[|runs| - 1].task(Compose(runs[..|runs| - 1], item))
  }

  lemma StageReturnsTheTask(s: StageRun, items: seq<Json>, results: seq<Json>)
    requires StageReports(s, items, results) && StageHonest(s)
    ensures results == Apply(s.task, items)
  {
    if items != [] {
      JobReturnsTheTask(s.config, items, s.jobs, s.events, s.task);
    }
  }

  /** A pipeline whose stages each ran with wrong providers in the minority on every chunk reports the
      composition of the stages' functions, mapped over the items in order. */
  lemma {:induction false} PipelineComposes(runs: seq<StageRun>, parts: seq<seq<Json>>)
    requires PipelineRun(runs, parts) && forall k :: 0 <= k < |runs| ==> StageHonest(runs[k])
    ensures parts[|runs|] == Apply(x => Compose(runs, x), parts[0])
    decreases |runs|
  {
    if runs == [] {
      assert Apply(x => Compose(runs, x), parts[0]) == parts[0];
    } else {
      var n := |runs| - 1;
      var front := runs[..n];
      assert PipelineRun(front, parts[..n + 1]) by {
        forall k | 0 <= k < n ensures StageReports(front[k], parts[..n + 1][k], parts[..n + 1][k + 1]) {
          assert StageReports(runs[k], parts[k], parts[k + 1]);
        }
      }
      PipelineComposes(front, parts[..n + 1]);
      StageReturnsTheTask(runs[n], parts[n], parts[n + 1]);
      assert Apply(runs[n].task, Apply(x => Compose(front, x), parts[0])) == Apply(x => Compose(runs, x), parts[0]);
    }
  }

  /** The results of the last stage and the reports of all. */
  datatype Outcome = Report(results: seq<Json>, stages: seq<seq<Json>>) | JobError

  /** `run(k, items)` is what the job of stage `k` reports, if it does not fail: whatever it reports, some
      run of that stage reported. */
  ghost predicate RunsJobs(configs: seq<Config>, run: (nat, seq<Json>) -> Option<seq<Json>>)
  {
    forall k, xs :: 0 <= k < |configs| && run(k, xs).Some? ==> Backed(configs[k], xs, run(k, xs).value)
  }

  ghost predicate Backed(g: Config, items: seq<Json>, results: seq<Json>) {
    exists s: StageRun :: s.config == g && StageReports(s, items, results)
  }

  ghost predicate OfStages(runs: seq<StageRun>, configs: seq<Config>) {
    |runs| <= |configs| && forall k :: 0 <= k < |runs| ==> runs[k].config == configs[k]
  }

  lemma PipelineMore(runs: seq<StageRun>, configs: seq<Config>, parts: seq<seq<Json>>, results: seq<Json>) returns (more: seq<StageRun>)
    requires PipelineRun(runs, parts) && OfStages(runs, configs) && |runs| < |configs|
    requires Backed(configs[|runs|], parts[|runs|], results)
    ensures |more| == |runs| + 1 && PipelineRun(more, parts + [results]) && OfStages(more, configs)
  {
    var s: StageRun :| s.config == configs[|runs|] && StageReports(s, parts[|runs|], results);
    more := runs + [s];
    var longer := parts + [results];
    forall k | 0 <= k < |more| ensures StageReports(more[k], longer[k], longer[k + 1]) {
      assert k < |runs| ==> StageReports(runs[k], parts[k], parts[k + 1]);
    }
  }

  /** What stage `k` starts from. */
  function Fed(items: seq<Json>, reports: seq<seq<Json>>, k: nat): seq<Json>
    requires k <= |reports|
  {
    if k == 0 then items else reports[k - 1]
  }

  /** Every report is what its stage's job gives for the report before it. */
  predicate Chained(run: (nat, seq<Json>) -> Option<seq<Json>>, items: seq<Json>, reports: seq<seq<Json>>) {
    forall k :: 0 <= k < |reports| ==> run(k, Fed(items, reports, k)) == Some(reports[k])
  }

  lemma ChainedMore(run: (nat, seq<Json>) -> Option<seq<Json>>, items: seq<Json>, reports: seq<seq<Json>>, report: seq<Json>)
    requires Chained(run, items, reports) && run(|reports|, Fed(items, reports, |reports|)) == Some(report)
    ensures Chained(run, items, reports + [report])
  {
    var more := reports + [report];
    forall k | 0 <= k < |more| ensures run(k, Fed(items, more, k)) == Some(more[k]) {
      assert Fed(items, more, k) == Fed(items, reports, k);
      assert k < |reports| ==> more[k] == reports[k];
    }
  }

  /** The report of a pipeline is that of a run of all its stages, each fed with the report before it; it
      fails exactly if there is no stage or a stage's job fails on what it is fed. */
  method RunPipeline(ghost configs: seq<Config>, stages: nat, items: seq<Json>, run: (nat, seq<Json>) -> Option<seq<Json>>)
    returns (outcome: Outcome, ghost runs: seq<StageRun>, ghost parts: seq<seq<Json>>)
    requires |configs| == stages && RunsJobs(configs, run)
    ensures PipelineRun(runs, parts) && parts[0] == items
    ensures OfStages(runs, configs)
    ensures outcome.Report? ==> |outcome.stages| == stages && outcome.results == Fed(items, outcome.stages, stages)
    ensures outcome.Report? ==> stages > 0 && Chained(run, items, outcome.stages)
    ensures outcome.Report? ==> |runs| == stages && outcome.stages == parts[1..]
    ensures outcome == JobError ==> stages == 0 || (|runs| < stages && run(|runs|, parts[|runs|]) == None)
  {
    runs, parts := [], [items];
    if stages == 0 {
      return JobError, runs, parts;
    }
    var current, reports := items, [];
    for k := 0 to stages
      invariant PipelineRun(runs, parts) && parts == [items] + reports && |runs| == k && current == parts[k]
      invariant OfStages(runs, configs)
      invariant |reports| == k && current == Fed(items, reports, k) && Chained(run, items, reports)
    {
      var report := run(k, current);
      if report == None {
        return JobError, runs, parts;
      }
      assert Backed(configs[k], current, report.value);
      runs := PipelineMore(runs, configs, parts, report.value);
      parts := parts + [report.value];
      ChainedMore(run, items, reports, report.value);
      reports, current := reports + [report.value], report.value;
    }
    return Report(current, reports), runs, parts;
  }

  // ---------------------------------------------------------------- a negative price

  /** One provider that advertises one millionth of a credit below nothing, one item, one dispatch and one
      answer: `spent` goes to -1 while the balance has not moved. */
  lemma NegativePriceShows(g: Config, p: NodeId, x: Json, y: Json, now: real) returns (js: seq<Job>, es: seq<Event>)
    requires Usable(g) && g.prices == map[p := -1] && g.maxPrice == -1 && g.chunkSize == 1 && g.redundancy == 1
    ensures es == [Dispatch(p, now), Settled(p, now, [y])] && Execution(g, [x], js, es) && js[0].ledger == EMPTY
    ensures js[2].spent == -1 && BalanceOf(js[2].ledger, g.me.nodeId) == BalanceOf(js[0].ledger, g.me.nodeId)
  {
    var j0 := Job(NewBoard([x], 1, 1), EMPTY, now, map[], map[], 0, 0);
    assert j0.board == [Fresh([x], 1)] && Begins(g, j0, [x]);
    var j1 := NegativePriceDispatched(g, j0, p, x, now);
    NegativePriceSettles(g, j1, p, now, [y]);
    SettledFollows(g, j1, p, now, [y]);
    js, es := [j0, j1, Settle(g, j1, p, now, [y])], [Dispatch(p, now), Settled(p, now, [y])];
    TwoEvents(g, [x], j0, es[0], j1, es[1], js[2]);
  }

  lemma SettledFollows(g: Config, j: Job, p: NodeId, now: real, results: seq<Json>)
    requires p in j.pending && j.pending[p].chunk < |j.board| && j.clock <= now
    requires |results| == |j.board[j.pending[p].chunk].items|
    ensures Follows(g, j, Settled(p, now, results), Settle(g, j, p, now, results))
  {
  }

  lemma TwoEvents(g: Config, items: seq<Json>, a: Job, d: Event, b: Job, e: Event, c: Job)
    requires g.chunkSize >= 1 && Begins(g, a, items) && Follows(g, a, d, b) && Follows(g, b, e, c)
    ensures Execution(g, items, [a, b, c], [d, e])
  {
  }

  lemma NegativePriceDispatched(g: Config, j: Job, p: NodeId, x: Json, now: real) returns (sent: Job)
    requires Usable(g) && g.prices == map[p := -1] && g.maxPrice == -1 && g.chunkSize == 1 && g.redundancy == 1
    requires j == Job([Fresh([x], 1)], EMPTY, now, map[], map[], 0, 0) && Begins(g, j, [x])
    ensures Follows(g, j, Dispatch(p, now), sent) && Orderly(g, sent) && sent.clock == now && sent.spent == 0
    ensures p in sent.pending && sent.pending[p].amount == -1 && sent.pending[p].chunk < |sent.board|
    ensures |sent.board[sent.pending[p].chunk].items| == 1
    ensures BalanceOf(sent.ledger, g.me.nodeId) == BalanceOf(EMPTY, g.me.nodeId)
  {
    NegativePriceSends(g, j, p, now);
    sent := Step(g, j, Dispatch(p, now));
    BeginsOrderly(g, j, [x]);
    OrderlyStep(g, j, Dispatch(p, now));
    ClaimIsOpen(g, j);
  }

  /** The ledger refuses the payment, the job adds it. */
  lemma NegativePriceSettles(g: Config, j: Job, p: NodeId, now: real, results: seq<Json>)
    requires Usable(g) && Orderly(g, j) && p in j.pending && j.pending[p].amount == -1 && j.clock <= now
    requires j.pending[p].chunk < |j.board|
    ensures var j' := Settle(g, j, p, now, results);
            j'.spent == j.spent - 1 && BalanceOf(j'.ledger, g.me.nodeId) == BalanceOf(j.ledger, g.me.nodeId)
  {
    assert GoodPayment(g, j, p);
    OwnPaymentApplied(g, j, p, now);
  }

  lemma NegativePriceSends(g: Config, j: Job, p: NodeId, now: real)
    requires Usable(g) && g.prices == map[p := -1] && g.maxPrice == -1 && g.chunkSize == 1 && g.redundancy == 1
    requires |j.board| == 1 && j.board[0] == Fresh(j.board[0].items, 1) && |j.board[0].items| == 1
    requires j.ledger == EMPTY && j.clock == now && j.pending == map[] && j.strikes == map[]
    ensures Enabled(g, j, Dispatch(p, now)) && Step(g, j, Dispatch(p, now)) == Sent(g, j, p, now, 0)
    ensures Price(g, j.board[0], p) == -1
  {
    var board := j.board[0 := Acquired(j.board[0], p)];
    assert board[..0] == [] && Total(board, Flying()) == 1;
    assert Winners(Txs(EMPTY)) == {};
    FirstEligibleMeans(j.board, p, 0);
    assert Eligible(j.board[0], p);
    assert j.board[0].accepted.None? && !Finished(j.board);
  }
}
