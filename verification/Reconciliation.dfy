/** Two replicas that page each other's tables while both keep hearing transfers. Each direction stays
    a sound link over every run, and once both have caught up and nothing newer was heard they agree. */
module Reconciliation {
  import opened Wire
  import opened LedgerSpec
  import opened LedgerSteps
  import opened Convergence
  import opened AntiEntropy

  /** Two replicas, the cursor each keeps into the other's table, and the rows its pages have brought. */
  datatype Pair = Pair(clock: real, a: Ledger, b: Ledger, cursorA: int, cursorB: int, seenA: seq<Row>, seenB: seq<Row>)

  datatype Move =
    | AHears(now: real, envelope: Envelope)
    | BHears(now: real, envelope: Envelope)
    | APulls(now: real)
    | BPulls(now: real)

  function ToA(p: Pair): Link {
    Link(p.clock, p.b, p.a, p.cursorA, p.seenA)
  }

  function ToB(p: Pair): Link {
    Link(p.clock, p.a, p.b, p.cursorB, p.seenB)
  }

  function PageToA(p: Pair): seq<Row> {
    PageRows(p.b, p.cursorA, PAGE_LIMIT)
  }

  function PageToB(p: Pair): seq<Row> {
    PageRows(p.a, p.cursorB, PAGE_LIMIT)
  }

  function Step(r: Rules, p: Pair, m: Move): Pair
  {
    match m
    case AHears(now, env) => p.(clock := now, a := AddTx(r, now, p.a, env))
    case BHears(now, env) => p.(clock := now, b := AddTx(r, now, p.b, env))
    case APulls(now) =>
      var page := PageToA(p);
      p.(clock := now, a := Feed(r, p.a, Deliveries(now, page)),
         cursorA := NextCursor(page, p.cursorA), seenA := p.seenA + page)
    case BPulls(now) =>
      var page := PageToB(p);
      p.(clock := now, b := Feed(r, p.b, Deliveries(now, page)),
         cursorB := NextCursor(page, p.cursorB), seenB := p.seenB + page)
  }

  function AfterMoves(r: Rules, p: Pair, ms: seq<Move>): Pair
    decreases |ms|
  {
    if ms == [] then p else Step(r, AfterMoves(r, p, ms[..|ms| - 1]), ms[|ms| - 1])
  }

  ghost predicate InTime(start: real, ms: seq<Move>) {
    && (forall i :: 0 <= i < |ms| ==> start <= ms[i].now)
    && (forall i, j :: 0 <= i < j < |ms| ==> ms[i].now <= ms[j].now)
  }

  /** Two replicas on one baseline that have not pulled from each other yet. */
  ghost predicate Fresh(r: Rules, p: Pair)
  {
    && Consistent(r, p.a) && Consistent(r, p.b) && TimelyRows(p.a, p.clock) && TimelyRows(p.b, p.clock)
    && p.a.base == p.b.base && p.a.flagged == p.b.flagged
    && p.cursorA == 0 && p.cursorB == 0 && p.seenA == [] && p.seenB == []
  }

  ghost predicate BothLinked(r: Rules, p: Pair) {
    Linked(r, ToA(p)) && Linked(r, ToB(p)) && p.a.flagged == p.b.flagged
  }

  lemma FreshIsLinked(r: Rules, p: Pair)
    requires Fresh(r, p)
    ensures BothLinked(r, p)
  {
    NothingUpToZero(r, p.a);
    NothingUpToZero(r, p.b);
  }

  lemma NothingUpToZero(r: Rules, l: Ledger)
    requires Consistent(r, l)
    ensures UpTo(l.rows, 0) == []
  {
  }

  // ---------------------------------------------------------------- a page as seen by the other direction

  /** A source that is itself fed a page at one clock reading hears its rows one by one. */
  lemma {:induction false} LinkedSourceFed(r: Rules, k: Link, now: real, ds: seq<Delivery>)
    requires Linked(r, k) && k.clock <= now && forall d :: d in ds ==> d.now == now
    ensures Linked(r, k.(clock := now, source := Feed(r, k.source, ds)))
    decreases |ds|
  {
    if ds == [] {
      TimelyLater(k.source, k.clock, now);
    } else {
      var front, d := ds[..|ds| - 1], ds[|ds| - 1];
      LinkedSourceFed(r, k, now, front);
      LinkedSourceHears(r, k.(clock := now, source := Feed(r, k.source, front)), now, d.envelope);
    }
  }

  lemma BothLinkedStep(r: Rules, p: Pair, m: Move)
    requires InjectiveDigest(r) && BothLinked(r, p) && p.clock <= m.now
    ensures BothLinked(r, Step(r, p, m))
  {
    var p' := Step(r, p, m);
    match m
    case AHears(now, env) =>
      LinkedStep(r, ToA(p), PullerHears(now, env));
      LinkedStep(r, ToB(p), SourceHears(now, env));
      AddTxEffect(r, now, p.a, env);
    case BHears(now, env) =>
      LinkedStep(r, ToA(p), SourceHears(now, env));
      LinkedStep(r, ToB(p), PullerHears(now, env));
      AddTxEffect(r, now, p.b, env);
    case APulls(now) =>
      LinkedStep(r, ToA(p), Page(now, PAGE_LIMIT));
      LinkedSourceFed(r, ToB(p), now, Deliveries(now, PageToA(p)));
      FeedStores(r, p.a, Deliveries(now, PageToA(p)));
      assert ToA(p') == Next(r, ToA(p), Page(now, PAGE_LIMIT));
    case BPulls(now) =>
      LinkedStep(r, ToB(p), Page(now, PAGE_LIMIT));
      LinkedSourceFed(r, ToA(p), now, Deliveries(now, PageToB(p)));
      FeedStores(r, p.b, Deliveries(now, PageToB(p)));
      assert ToB(p') == Next(r, ToB(p), Page(now, PAGE_LIMIT));
  }

  /** Over every run from a fresh start both directions stay linked. */
  lemma {:induction false} AlwaysLinked(r: Rules, p: Pair, ms: seq<Move>)
    requires InjectiveDigest(r) && Fresh(r, p) && InTime(p.clock, ms)
    ensures BothLinked(r, AfterMoves(r, p, ms))
    ensures AfterMoves(r, p, ms).clock == if ms == [] then p.clock else ms[|ms| - 1].now
    decreases |ms|
  {
    if ms == [] {
      FreshIsLinked(r, p);
    } else {
      AlwaysLinked(r, p, ms[..|ms| - 1]);
      BothLinkedStep(r, AfterMoves(r, p, ms[..|ms| - 1]), ms[|ms| - 1]);
    }
  }

  /** After any run each replica holds every row of the other's table up to its cursor, each of them
      brought by exactly one page. */
  lemma BothPullingsComplete(r: Rules, p: Pair, ms: seq<Move>)
    requires InjectiveDigest(r) && Fresh(r, p) && InTime(p.clock, ms)
    ensures var end := AfterMoves(r, p, ms);
            && end.seenA == UpTo(end.b.rows, end.cursorA) && end.seenB == UpTo(end.a.rows, end.cursorB)
            && (forall row :: row in end.b.rows && row.rowid <= end.cursorA ==> row.tx in Txs(end.a))
            && (forall row :: row in end.a.rows && row.rowid <= end.cursorB ==> row.tx in Txs(end.b))
  {
    AlwaysLinked(r, p, ms);
    var end := AfterMoves(r, p, ms);
    ConsistentOrder(r, end.a);
    ConsistentOrder(r, end.b);
    UpToIsPrefix(end.b.rows, end.cursorA);
    UpToIsPrefix(end.a.rows, end.cursorB);
  }

  // ---------------------------------------------------------------- agreement

  /** What a move adds to the two stored sets. */
  lemma StepStores(r: Rules, p: Pair, m: Move)
    requires InjectiveDigest(r) && BothLinked(r, p) && p.clock <= m.now
    ensures var p' := Step(r, p, m);
            && (m.APulls? ==> Txs(p'.a) == Txs(p.a) + TxSet(PageToA(p)) && p'.b == p.b)
            && (m.BPulls? ==> Txs(p'.b) == Txs(p.b) + TxSet(PageToB(p)) && p'.a == p.a)
            && (m.AHears? ==> Txs(p.a) <= Txs(p'.a) && p'.b == p.b)
            && (m.BHears? ==> Txs(p.b) <= Txs(p'.b) && p'.a == p.a)
  {
    match m
    case AHears(now, env) => AddTxEffect(r, now, p.a, env);
    case BHears(now, env) => AddTxEffect(r, now, p.b, env);
    case APulls(now) =>
      TimelyLater(p.b, p.clock, now);
      PageRowsAreRows(p.b.rows, p.cursorA, PAGE_LIMIT);
      FeedPage(r, p.b, p.a, now, PageToA(p));
    case BPulls(now) =>
      TimelyLater(p.a, p.clock, now);
      PageRowsAreRows(p.a.rows, p.cursorB, PAGE_LIMIT);
      FeedPage(r, p.a, p.b, now, PageToB(p));
  }

  lemma PageWithin(l: Ledger, cursor: int)
    ensures TxSet(PageRows(l, cursor, PAGE_LIMIT)) <= Txs(l)
  {
    PageRowsAreRows(l.rows, cursor, PAGE_LIMIT);
  }

  /** Move `k` of a run is an envelope heard directly that changes the replica's ledger. */
  predicate NewAtA(r: Rules, p: Pair, ms: seq<Move>, k: nat)
    requires k < |ms|
  {
    ms[k].AHears? && Stored(StatusOf(r, ms[k].now, AfterMoves(r, p, ms[..k]).a, ms[k].envelope))
  }

  predicate NewAtB(r: Rules, p: Pair, ms: seq<Move>, k: nat)
    requires k < |ms|
  {
    ms[k].BHears? && Stored(StatusOf(r, ms[k].now, AfterMoves(r, p, ms[..k]).b, ms[k].envelope))
  }

  /** Move `k` is an empty page. */
  predicate EmptyToA(r: Rules, p: Pair, ms: seq<Move>, k: nat)
    requires k < |ms|
  {
    ms[k].APulls? && PageToA(AfterMoves(r, p, ms[..k])) == []
  }

  predicate EmptyToB(r: Rules, p: Pair, ms: seq<Move>, k: nat)
    requires k < |ms|
  {
    ms[k].BPulls? && PageToB(AfterMoves(r, p, ms[..k])) == []
  }

  lemma LinkedAt(r: Rules, p: Pair, ms: seq<Move>, k: nat)
    requires InjectiveDigest(r) && Fresh(r, p) && InTime(p.clock, ms) && k <= |ms|
    ensures BothLinked(r, AfterMoves(r, p, ms[..k]))
    ensures k < |ms| ==> AfterMoves(r, p, ms[..k]).clock <= ms[k].now
    ensures k < |ms| ==> AfterMoves(r, p, ms[..k + 1]) == Step(r, AfterMoves(r, p, ms[..k]), ms[k])
  {
    AlwaysLinked(r, p, ms[..k]);
    if k < |ms| {
      assert ms[..k + 1][..k] == ms[..k];
    }
  }

  ghost predicate AHasAll(p: Pair) {
    Txs(p.b) <= Txs(p.a)
  }

  ghost predicate BHasAll(p: Pair) {
    Txs(p.a) <= Txs(p.b)
  }

  lemma EmptyPageCatchesUp(r: Rules, p: Pair, m: Move)
    requires InjectiveDigest(r) && BothLinked(r, p) && p.clock <= m.now
    ensures m.APulls? && PageToA(p) == [] ==> AHasAll(Step(r, p, m))
    ensures m.BPulls? && PageToB(p) == [] ==> BHasAll(Step(r, p, m))
  {
    StepStores(r, p, m);
    if m.APulls? && PageToA(p) == [] {
      CaughtUpHoldsAll(r, ToA(p));
    }
    if m.BPulls? && PageToB(p) == [] {
      CaughtUpHoldsAll(r, ToB(p));
    }
  }

  /** Only a new transfer heard by the other replica ends having all of its transfers. */
  lemma StaysCaughtUp(r: Rules, p: Pair, m: Move)
    requires InjectiveDigest(r) && BothLinked(r, p) && p.clock <= m.now
    ensures AHasAll(p) && !(m.BHears? && Stored(StatusOf(r, m.now, p.b, m.envelope))) ==> AHasAll(Step(r, p, m))
    ensures BHasAll(p) && !(m.AHears? && Stored(StatusOf(r, m.now, p.a, m.envelope))) ==> BHasAll(Step(r, p, m))
  {
    StepStores(r, p, m);
    PageWithin(p.a, p.cursorB);
    PageWithin(p.b, p.cursorA);
  }

  ghost predicate AHasAllAt(r: Rules, p: Pair, ms: seq<Move>, k: nat)
    requires k <= |ms|
  {
    AHasAll(AfterMoves(r, p, ms[..k]))
  }

  ghost predicate BHasAllAt(r: Rules, p: Pair, ms: seq<Move>, k: nat)
    requires k <= |ms|
  {
    BHasAll(AfterMoves(r, p, ms[..k]))
  }

  lemma StartsWithEmptyPage(r: Rules, p: Pair, ms: seq<Move>, k: nat)
    requires InjectiveDigest(r) && Fresh(r, p) && InTime(p.clock, ms) && k < |ms|
    ensures EmptyToA(r, p, ms, k) ==> AHasAllAt(r, p, ms, k + 1)
    ensures EmptyToB(r, p, ms, k) ==> BHasAllAt(r, p, ms, k + 1)
  {
    LinkedAt(r, p, ms, k);
    EmptyPageCatchesUp(r, AfterMoves(r, p, ms[..k]), ms[k]);
  }

  lemma LastsForA(r: Rules, p: Pair, ms: seq<Move>, k: nat)
    requires InjectiveDigest(r) && Fresh(r, p) && InTime(p.clock, ms) && k < |ms|
    requires !NewAtB(r, p, ms, k) && AHasAllAt(r, p, ms, k)
    ensures AHasAllAt(r, p, ms, k + 1)
  {
    LinkedAt(r, p, ms, k);
    StaysCaughtUp(r, AfterMoves(r, p, ms[..k]), ms[k]);
  }

  lemma LastsForB(r: Rules, p: Pair, ms: seq<Move>, k: nat)
    requires InjectiveDigest(r) && Fresh(r, p) && InTime(p.clock, ms) && k < |ms|
    requires !NewAtA(r, p, ms, k) && BHasAllAt(r, p, ms, k)
    ensures BHasAllAt(r, p, ms, k + 1)
  {
    LinkedAt(r, p, ms, k);
    StaysCaughtUp(r, AfterMoves(r, p, ms[..k]), ms[k]);
  }

  /** What starts after `i` and lasts from each moment to the next holds at `k`. */
  lemma {:induction false} Lasts(holds: nat -> bool, i: nat, k: nat)
    requires i < k && holds(i + 1) && forall n: nat :: i < n < k && holds(n) ==> holds(n + 1)
    ensures holds(k)
    decreases k
  {
    if i + 1 < k {
      Lasts(holds, i, k - 1);
    }
  }

  /** From an empty page on a holds everything b does, until b hears something new. */
  lemma AHoldsAll(r: Rules, p: Pair, ms: seq<Move>, i: nat, k: nat)
    requires InjectiveDigest(r) && Fresh(r, p) && InTime(p.clock, ms) && i < k <= |ms| && EmptyToA(r, p, ms, i)
    requires forall n: nat :: i < n < k ==> !NewAtB(r, p, ms, n)
    ensures AHasAllAt(r, p, ms, k)
  {
    var holds := (n: nat) => n <= |ms| && AHasAllAt(r, p, ms, n);
    StartsWithEmptyPage(r, p, ms, i);
    forall n: nat | i < n < k && holds(n) ensures holds(n + 1) {
      LastsForA(r, p, ms, n);
    }
    Lasts(holds, i, k);
  }

  lemma BHoldsAll(r: Rules, p: Pair, ms: seq<Move>, j: nat, k: nat)
    requires InjectiveDigest(r) && Fresh(r, p) && InTime(p.clock, ms) && j < k <= |ms| && EmptyToB(r, p, ms, j)
    requires forall n: nat :: j < n < k ==> !NewAtA(r, p, ms, n)
    ensures BHasAllAt(r, p, ms, k)
  {
    var holds := (n: nat) => n <= |ms| && BHasAllAt(r, p, ms, n);
    StartsWithEmptyPage(r, p, ms, j);
    forall n: nat | j < n < k && holds(n) ensures holds(n + 1) {
      LastsForB(r, p, ms, n);
    }
    Lasts(holds, j, k);
  }

  /** In any run from a fresh start: if a got an empty page and b has heard nothing new since, and b got
      an empty page and a has heard nothing new since, both hold the same transfers, give the same
      answers and produce the same snapshot. The two pages may lie any distance apart. */
  lemma CaughtUpReplicasAgree(r: Rules, p: Pair, ms: seq<Move>, i: nat, j: nat)
    requires InjectiveDigest(r) && Fresh(r, p) && InTime(p.clock, ms) && i < |ms| && j < |ms|
    requires EmptyToA(r, p, ms, i) && forall n: nat :: i < n < |ms| ==> !NewAtB(r, p, ms, n)
    requires EmptyToB(r, p, ms, j) && forall n: nat :: j < n < |ms| ==> !NewAtA(r, p, ms, n)
    ensures var end := AfterMoves(r, p, ms);
            Txs(end.a) == Txs(end.b) && SnapshotOf(end.a) == SnapshotOf(end.b) && forall n :: SameAnswers(end.a, end.b, n)
  {
    AHoldsAll(r, p, ms, i, |ms|);
    BHoldsAll(r, p, ms, j, |ms|);
    AlwaysLinked(r, p, ms);
    assert ms[..|ms|] == ms;
    SameBookSameAnswers(AfterMoves(r, p, ms).a, AfterMoves(r, p, ms).b);
  }

  /** Two empty pages alone are not enough: b hears a transfer after a's empty page and before its own. */
  lemma EmptyPagesAlone(r: Rules, e: Envelope)
    requires InjectiveDigest(r) && Valid(r, 0.0, e)
    ensures var p, ms := Pair(0.0, EMPTY, EMPTY, 0, 0, [], []), [APulls(0.0), BHears(0.0, e), BPulls(0.0)];
            && Fresh(r, p) && InTime(p.clock, ms) && EmptyToA(r, p, ms, 0) && EmptyToB(r, p, ms, 2)
            && Txs(AfterMoves(r, p, ms).a) == {} && Txs(AfterMoves(r, p, ms).b) == {TxOf(r, e.payload)}
  {
    var p := Pair(0.0, EMPTY, EMPTY, 0, 0, [], []);
    AfterThree(r, p, APulls(0.0), BHears(0.0, e), BPulls(0.0));
    NothingToPull(r, p);
    NothingToPull(r, Step(r, p, BHears(0.0, e)));
    AddTxEffect(r, 0.0, EMPTY, e);
  }

  /** A page of an empty table changes nothing. */
  lemma NothingToPull(r: Rules, p: Pair)
    requires p.clock == 0.0
    ensures p.a.rows == [] ==> PageToB(p) == [] && Step(r, p, BPulls(0.0)) == p
    ensures p.b.rows == [] ==> PageToA(p) == [] && Step(r, p, APulls(0.0)) == p
  {
    assert Deliveries(0.0, []) == [];
  }

  lemma AfterThree(r: Rules, p: Pair, a: Move, b: Move, c: Move)
    ensures AfterMoves(r, p, [a, b, c][..0]) == p
    ensures AfterMoves(r, p, [a, b, c][..2]) == Step(r, Step(r, p, a), b)
    ensures AfterMoves(r, p, [a, b, c]) == Step(r, Step(r, Step(r, p, a), b), c)
  {
    var ms := [a, b, c];
    assert ms[..0] == [] && ms[..1][..0] == [] && ms[..2][..1] == ms[..1] && ms[..3] == ms && ms[..3][..2] == ms[..2];
  }
}
