/** The scheduler over all chunks of a job, under any interleaving of its workers, and the object
    whose methods take the steps. */
module SchedulerRuns {
  import opened Wire
  import opened Scheduling

  datatype Move =
    | Take(worker: NodeId)
    | Finish(chunk: nat, worker: NodeId, value: seq<Json>)
    | Drop(chunk: nat, worker: NodeId)

  function FirstEligible(board: seq<Chunk>, p: NodeId, from: nat): Option<nat>
    requires from <= |board|
    decreases |board| - from
  {
    if from == |board| then None
    else if Eligible(board[from], p) then Some(from)
    else FirstEligible(board, p, from + 1)
  }

  lemma {:induction false} FirstEligibleMeans(board: seq<Chunk>, p: NodeId, from: nat)
    requires from <= |board|
    ensures match FirstEligible(board, p, from)
            case Some(i) => from <= i < |board| && Eligible(board[i], p) && forall j :: from <= j < i ==> !Eligible(board[j], p)
            case None => forall j :: from <= j < |board| ==> !Eligible(board[j], p)
    decreases |board| - from
  {
    if from < |board| {
      FirstEligibleMeans(board, p, from + 1);
    }
  }

  /** A worker reports on a chunk only while it is running it. */
  predicate CanPlay(board: seq<Chunk>, m: Move)
  {
    match m
    case Take(_) => true
    case Finish(i, p, _) => i < |board| && p in board[i].inFlight
    case Drop(i, p) => i < |board| && p in board[i].inFlight
  }

  function Play(board: seq<Chunk>, redundancy: int, fp: Fingerprint, m: Move): (board': seq<Chunk>)
    requires CanPlay(board, m)
    ensures |board'| == |board|
  {
    match m
    case Take(p) =>
      (match FirstEligible(board, p, 0)
       case Some(i) => FirstEligibleMeans(board, p, 0); board[i := Acquired(board[i], p)]
       case None => board)
    case Finish(i, p, value) => board[i := Completed(board[i], redundancy, fp, p, value)]
    case Drop(i, p) => board[i := Failed(board[i], p)]
  }

  ghost predicate AllSane(board: seq<Chunk>, redundancy: int, fp: Fingerprint) {
    forall i :: 0 <= i < |board| ==> Sane(board[i], redundancy, fp)
  }

  /** Votes are only added and an accepted result stays. */
  ghost predicate Later(c: Chunk, c': Chunk) {
    c.votes <= c'.votes && (c.accepted.Some? ==> c'.accepted == c.accepted) && c'.items == c.items
  }

  lemma PlayKeeps(board: seq<Chunk>, redundancy: int, fp: Fingerprint, m: Move)
    requires redundancy >= 1 && AllSane(board, redundancy, fp) && CanPlay(board, m)
    ensures var board' := Play(board, redundancy, fp, m);
            AllSane(board', redundancy, fp) && forall i :: 0 <= i < |board| ==> Later(board[i], board'[i])
  {
    match m
    case Take(p) =>
      FirstEligibleMeans(board, p, 0);
      if FirstEligible(board, p, 0).Some? {
        SaneAcquired(board[FirstEligible(board, p, 0).value], redundancy, fp, p);
      }
    case Finish(i, p, value) => SaneCompleted(board[i], redundancy, fp, p, value);
    case Drop(i, p) => SaneFailed(board[i], redundancy, fp, p);
  }

  ghost predicate Run(boards: seq<seq<Chunk>>, moves: seq<Move>, redundancy: int, fp: Fingerprint)
  {
    && |boards| == |moves| + 1
    && (forall i :: 0 <= i < |boards[0]| ==> boards[0][i] == Fresh(boards[0][i].items, redundancy))
    && forall k {:trigger moves[k]} :: 0 <= k < |moves| ==>
         CanPlay(boards[k], moves[k]) && boards[k + 1] == Play(boards[k], redundancy, fp, moves[k])
  }

  lemma {:induction false} RunSane(boards: seq<seq<Chunk>>, moves: seq<Move>, redundancy: int, fp: Fingerprint, k: nat)
    requires redundancy >= 1 && Run(boards, moves, redundancy, fp) && k < |boards|
    ensures AllSane(boards[k], redundancy, fp) && |boards[k]| == |boards[0]|
  {
    if k == 0 {
      forall i | 0 <= i < |boards[0]| ensures Sane(boards[0][i], redundancy, fp) {
        SaneFresh(boards[0][i].items, redundancy, fp);
      }
    } else {
      RunSane(boards, moves, redundancy, fp, k - 1);
      PlayKeeps(boards[k - 1], redundancy, fp, moves[k - 1]);
    }
  }

  lemma {:induction false} RunLater(boards: seq<seq<Chunk>>, moves: seq<Move>, redundancy: int, fp: Fingerprint,
                                    j: nat, k: nat, i: nat)
    requires redundancy >= 1 && Run(boards, moves, redundancy, fp) && j <= k < |boards| && i < |boards[0]|
    ensures |boards[j]| == |boards[k]| == |boards[0]| && Later(boards[j][i], boards[k][i])
    decreases k
  {
    RunSane(boards, moves, redundancy, fp, j);
    RunSane(boards, moves, redundancy, fp, k);
    if j < k {
      RunLater(boards, moves, redundancy, fp, j, k - 1, i);
      OneLater(boards, moves, redundancy, fp, k - 1, i);
    }
  }

  lemma OneLater(boards: seq<seq<Chunk>>, moves: seq<Move>, redundancy: int, fp: Fingerprint, k: nat, i: nat)
    requires redundancy >= 1 && Run(boards, moves, redundancy, fp) && k < |moves| && i < |boards[0]|
    ensures |boards[k]| == |boards[k + 1]| == |boards[0]| && Later(boards[k][i], boards[k + 1][i])
  {
    RunSane(boards, moves, redundancy, fp, k);
    PlayKeeps(boards[k], redundancy, fp, moves[k]);
  }

  lemma {:induction false} CountMonotone(votes: seq<Vote>, more: seq<Vote>, fp: Fingerprint, f: nat)
    requires votes <= more
    ensures Count(votes, fp, f) <= Count(more, fp, f)
    decreases |more|
  {
    if |votes| < |more| {
      CountMonotone(votes, more[..|more| - 1], fp, f);
    } else {
      assert votes == more;
    }
  }

  /** Over a whole run, widened votes and late results included: of the fingerprints that ever reach a
      majority of distinct providers on a chunk there is only one, and an accepted result never changes. */
  lemma MajorityIsForEver(boards: seq<seq<Chunk>>, moves: seq<Move>, redundancy: int, fp: Fingerprint,
                          j: nat, k: nat, i: nat, f: nat, g: nat)
    requires redundancy >= 1 && Run(boards, moves, redundancy, fp) && j <= k < |boards| && i < |boards[0]|
    requires |boards[j]| == |boards[k]| == |boards[0]|
    ensures (Count(boards[j][i].votes, fp, f) >= Majority(redundancy) && Count(boards[k][i].votes, fp, g) >= Majority(redundancy))
            ==> f == g
    ensures boards[j][i].accepted.Some? ==> boards[k][i].accepted == boards[j][i].accepted
    ensures boards[k][i].accepted.Some? <==> exists h :: Count(boards[k][i].votes, fp, h) >= Majority(redundancy)
  {
    RunLater(boards, moves, redundancy, fp, j, k, i);
    RunSane(boards, moves, redundancy, fp, k);
    CountMonotone(boards[j][i].votes, boards[k][i].votes, fp, f);
    if Count(boards[j][i].votes, fp, f) >= Majority(redundancy) && Count(boards[k][i].votes, fp, g) >= Majority(redundancy) {
      OneMajority(boards[k][i], redundancy, fp, f, g);
    }
    AcceptedMeansMajority(boards[k][i], redundancy, fp);
  }

  lemma AcceptedMeansMajority(c: Chunk, redundancy: int, fp: Fingerprint)
    requires redundancy >= 1 && Sane(c, redundancy, fp)
    ensures c.accepted.Some? <==> exists h :: Count(c.votes, fp, h) >= Majority(redundancy)
  {
    if c.accepted.Some? {
      var k: nat :| Decided(c, fp, Majority(redundancy), k);
      var h := fp(c.votes[k].value);
      assert Count(c.votes, fp, h) >= Majority(redundancy);
    } else {
      forall h: nat ensures Count(c.votes, fp, h) < Majority(redundancy) {
      }
    }
  }

  /** No provider runs a chunk more than twice or votes on it more than once, and no chunk is ever
      paid for more than `redundancy + 2` times. */
  lemma WorkIsBounded(boards: seq<seq<Chunk>>, moves: seq<Move>, redundancy: int, fp: Fingerprint, k: nat, i: nat)
    requires redundancy >= 1 && Run(boards, moves, redundancy, fp) && k < |boards|
    requires i < |boards[k]|
    ensures var c := boards[k][i];
            && |c.votes| + |c.inFlight| <= c.needed <= redundancy + MAX_EXTRA_ROUNDS
            && (forall p :: Attempts(c, p) <= MAX_ATTEMPTS_PER_PROVIDER)
            && forall a, b :: 0 <= a < b < |c.votes| ==> c.votes[a].provider != c.votes[b].provider
  {
    RunSane(boards, moves, redundancy, fp, k);
  }

  /** On every board of every run a result is accepted exactly when more than half of the redundancy agrees
      on it, and it is the earliest of those that do. */
  lemma AcceptedExactly(boards: seq<seq<Chunk>>, moves: seq<Move>, redundancy: int, fp: Fingerprint, k: nat, i: nat)
    requires redundancy >= 1 && Run(boards, moves, redundancy, fp) && k < |boards| && i < |boards[k]|
    ensures var c := boards[k][i];
            && (c.accepted.Some? <==> exists f :: 2 * Count(c.votes, fp, f) > redundancy)
            && (c.accepted.Some? ==> exists n: nat :: IsEarliest(c, redundancy, fp, n))
  {
    RunSane(boards, moves, redundancy, fp, k);
    var c := boards[k][i];
    AcceptedMeansMajority(c, redundancy, fp);
    forall f: nat ensures 2 * Count(c.votes, fp, f) > redundancy <==> Count(c.votes, fp, f) >= Majority(redundancy) {
    }
    if c.accepted.Some? {
      var n: nat :| Decided(c, fp, Majority(redundancy), n);
      assert IsEarliest(c, redundancy, fp, n);
    }
  }

  /** Vote `n` is the accepted one: more than half agree with it, and nobody before it did. */
  ghost predicate IsEarliest(c: Chunk, redundancy: int, fp: Fingerprint, n: nat)
  {
    && n < |c.votes| && c.accepted == Some(c.votes[n].value)
    && 2 * Count(c.votes, fp, fp(c.votes[n].value)) > redundancy
    && forall m :: 0 <= m < n ==> fp(c.votes[m].value) != fp(c.votes[n].value)
  }

  /** Move `m` hands chunk `i` to `p`. */
  predicate Hands(boards: seq<seq<Chunk>>, m: nat, i: nat, p: NodeId)
    requires m + 1 < |boards| && i < |boards[m]| && i < |boards[m + 1]|
  {
    p !in boards[m][i].inFlight && p in boards[m + 1][i].inFlight
  }

  function Handed(boards: seq<seq<Chunk>>, k: nat, i: nat, p: NodeId): nat
    requires k < |boards| && forall m :: 0 <= m <= k ==> i < |boards[m]|
  {
    if k == 0 then 0 else Handed(boards, k - 1, i, p) + if Hands(boards, k - 1, i, p) then 1 else 0
  }

  /** Every time a chunk is handed to a provider counts as one attempt, and nothing else does. */
  lemma {:induction false} AttemptsAreCounted(boards: seq<seq<Chunk>>, moves: seq<Move>, redundancy: int, fp: Fingerprint, k: nat, i: nat, p: NodeId)
    requires redundancy >= 1 && Run(boards, moves, redundancy, fp) && k < |boards| && i < |boards[0]|
    requires forall m :: 0 <= m <= k ==> i < |boards[m]|
    ensures Attempts(boards[k][i], p) == Handed(boards, k, i, p)
  {
    if k > 0 {
      AttemptsAreCounted(boards, moves, redundancy, fp, k - 1, i, p);
      FirstEligibleMeans(boards[k - 1], p, 0);
      OneMoveCounted(boards[k - 1], redundancy, fp, moves[k - 1], i, p);
    }
  }

  lemma OneMoveCounted(board: seq<Chunk>, redundancy: int, fp: Fingerprint, m: Move, i: nat, p: NodeId)
    requires CanPlay(board, m) && i < |board|
    ensures var c := Play(board, redundancy, fp, m)[i];
            Attempts(c, p) == Attempts(board[i], p) + if p !in board[i].inFlight && p in c.inFlight then 1 else 0
  {
    match m
    case Take(q) => FirstEligibleMeans(board, q, 0);
    case Finish(_, _, _) =>
    case Drop(_, _) =>
  }

  /** On every board of every run a chunk without a decision and with nothing in flight is open to all
      providers that have not voted and have attempts left, until two extra executions are in; and the
      worker of such a provider is handed the first chunk open to it. */
  lemma NobodyIsStuck(boards: seq<seq<Chunk>>, moves: seq<Move>, redundancy: int, fp: Fingerprint, k: nat, i: nat, p: NodeId)
    requires redundancy >= 1 && Run(boards, moves, redundancy, fp) && k < |boards| && i < |boards[k]|
    requires boards[k][i].accepted.None? && boards[k][i].inFlight == {} && |boards[k][i].votes| < redundancy + 2
    requires Attempts(boards[k][i], p) < 2
    requires forall j :: 0 <= j < |boards[k][i].votes| ==> boards[k][i].votes[j].provider != p
    ensures Eligible(boards[k][i], p)
    ensures exists j :: 0 <= j <= i && p in Play(boards[k], redundancy, fp, Take(p))[j].inFlight && p !in boards[k][j].inFlight
  {
    RunSane(boards, moves, redundancy, fp, k);
    UndecidedIsOpen(boards[k][i], redundancy, fp, p);
    FirstEligibleMeans(boards[k], p, 0);
    var j := FirstEligible(boards[k], p, 0).value;
    assert p in Play(boards[k], redundancy, fp, Take(p))[j].inFlight;
  }

  // ---------------------------------------------------------------- grouping by fingerprint

  datatype Group = Group(mark: nat, members: seq<NodeId>)

  function Camp(votes: seq<Vote>, fp: Fingerprint, f: nat): (out: seq<NodeId>)
    ensures |out| == Count(votes, fp, f)
  {
    if votes == [] then []
    else
      var v := votes[|votes| - 1];
      Camp(votes[..|votes| - 1], fp, f) + if fp(v.value) == f then [v.provider] else []
  }

  /** The groups are the camps, one for each fingerprint, in order of first appearance. */
  ghost predicate GroupsOf(groups: seq<Group>, votes: seq<Vote>, fp: Fingerprint)
  {
    AreCamps(groups, votes, fp) && Cover(groups, votes, fp) && InOrder(groups, votes, fp)
  }

  ghost predicate AreCamps(groups: seq<Group>, votes: seq<Vote>, fp: Fingerprint) {
    forall a :: 0 <= a < |groups| ==> groups[a].members == Camp(votes, fp, groups[a].mark) && groups[a].members != []
  }

  ghost predicate Cover(groups: seq<Group>, votes: seq<Vote>, fp: Fingerprint) {
    forall i :: 0 <= i < |votes| ==> HasGroup(groups, fp(votes[i].value))
  }

  ghost predicate HasGroup(groups: seq<Group>, f: nat) {
    exists a :: 0 <= a < |groups| && groups[a].mark == f
  }

  ghost predicate InOrder(groups: seq<Group>, votes: seq<Vote>, fp: Fingerprint) {
    forall a, b :: 0 <= a < b < |groups| ==>
      groups[a].mark != groups[b].mark && Opening(votes, fp, groups[a].mark) < Opening(votes, fp, groups[b].mark)
  }

  /** Where a fingerprint first appears, or the length if it does not. */
  function Opening(votes: seq<Vote>, fp: Fingerprint, f: nat): (k: nat)
    ensures k <= |votes| && (k < |votes| ==> fp(votes[k].value) == f)
    ensures forall j :: 0 <= j < k ==> fp(votes[j].value) != f
  {
    if votes == [] then 0
    else
      var k := Opening(votes[..|votes| - 1], fp, f);
      if k < |votes| - 1 then k else if fp(votes[|votes| - 1].value) == f then k else |votes|
  }

  function FindGroup(groups: seq<Group>, f: nat): (a: nat)
    ensures a <= |groups| && (a < |groups| ==> groups[a].mark == f)
    ensures a == |groups| ==> forall b :: 0 <= b < |groups| ==> groups[b].mark != f
  {
    if groups == [] then 0
    else if groups[0].mark == f then 0
    else 1 + FindGroup(groups[1..], f)
  }

  /** `groups.setdefault(f, []).append(p)`. */
  function Grouped(groups: seq<Group>, f: nat, p: NodeId): seq<Group>
  {
    var a := FindGroup(groups, f);
    if a < |groups| then groups[a := Group(f, groups[a].members + [p])] else groups + [Group(f, [p])]
  }

  lemma CampAppend(votes: seq<Vote>, fp: Fingerprint, v: Vote, f: nat)
    ensures Camp(votes + [v], fp, f) == Camp(votes, fp, f) + if fp(v.value) == f then [v.provider] else []
    ensures Opening(votes + [v], fp, f) ==
              if Opening(votes, fp, f) < |votes| then Opening(votes, fp, f)
              else if fp(v.value) == f then |votes| else |votes| + 1
  {
    assert (votes + [v])[..|votes|] == votes;
  }

  lemma {:induction false} CampEmptyIffAbsent(votes: seq<Vote>, fp: Fingerprint, f: nat)
    ensures Camp(votes, fp, f) == [] <==> Opening(votes, fp, f) == |votes|
    ensures Camp(votes, fp, f) != [] ==> Camp(votes, fp, f)[0] == votes[Opening(votes, fp, f)].provider
  {
    if votes != [] {
      CampEmptyIffAbsent(votes[..|votes| - 1], fp, f);
    }
  }

  lemma CampsGrow(groups: seq<Group>, votes: seq<Vote>, fp: Fingerprint, v: Vote)
    requires AreCamps(groups, votes, fp) && Cover(groups, votes, fp) && InOrder(groups, votes, fp)
    ensures AreCamps(Grouped(groups, fp(v.value), v.provider), votes + [v], fp)
  {
    var f := fp(v.value);
    var at := FindGroup(groups, f);
    var out := Grouped(groups, f, v.provider);
    if at == |groups| {
      NotGrouped(groups, votes, fp, f);
    }
    forall a | 0 <= a < |out| ensures out[a].members == Camp(votes + [v], fp, out[a].mark) && out[a].members != [] {
      CampAppend(votes, fp, v, out[a].mark);
      assert a != at ==> out[a] == groups[a] && (at < |groups| ==> groups[a].mark != groups[at].mark);
    }
  }

  lemma NotGrouped(groups: seq<Group>, votes: seq<Vote>, fp: Fingerprint, f: nat)
    requires Cover(groups, votes, fp) && forall b :: 0 <= b < |groups| ==> groups[b].mark != f
    ensures Camp(votes, fp, f) == [] && Opening(votes, fp, f) == |votes|
  {
    CampEmptyIffAbsent(votes, fp, f);
    assert Opening(votes, fp, f) < |votes| ==> HasGroup(groups, fp(votes[Opening(votes, fp, f)].value));
  }

  lemma CoverGrows(groups: seq<Group>, votes: seq<Vote>, fp: Fingerprint, v: Vote)
    requires Cover(groups, votes, fp)
    ensures Cover(Grouped(groups, fp(v.value), v.provider), votes + [v], fp)
  {
    var out := Grouped(groups, fp(v.value), v.provider);
    assert out[FindGroup(groups, fp(v.value))].mark == fp(v.value);
    forall i | 0 <= i < |votes| ensures HasGroup(out, fp(votes[i].value)) {
      var a :| 0 <= a < |groups| && groups[a].mark == fp(votes[i].value);
      assert out[a].mark == groups[a].mark;
    }
  }

  lemma OpeningStays(groups: seq<Group>, votes: seq<Vote>, fp: Fingerprint, v: Vote, a: nat)
    requires AreCamps(groups, votes, fp) && a < |groups|
    ensures Opening(votes + [v], fp, groups[a].mark) == Opening(votes, fp, groups[a].mark) < |votes|
  {
    CampAppend(votes, fp, v, groups[a].mark);
    CampEmptyIffAbsent(votes, fp, groups[a].mark);
  }

  lemma OrderGrows(groups: seq<Group>, votes: seq<Vote>, fp: Fingerprint, v: Vote)
    requires AreCamps(groups, votes, fp) && Cover(groups, votes, fp) && InOrder(groups, votes, fp)
    ensures InOrder(Grouped(groups, fp(v.value), v.provider), votes + [v], fp)
  {
    var f := fp(v.value);
    var out := Grouped(groups, f, v.provider);
    forall a, b | 0 <= a < b < |out|
      ensures out[a].mark != out[b].mark && Opening(votes + [v], fp, out[a].mark) < Opening(votes + [v], fp, out[b].mark)
    {
      assert out[a].mark == groups[a].mark;
      OpeningStays(groups, votes, fp, v, a);
      if b < |groups| {
        assert out[b].mark == groups[b].mark;
        OpeningStays(groups, votes, fp, v, b);
      } else {
        NotGrouped(groups, votes, fp, f);
        CampAppend(votes, fp, v, f);
      }
    }
  }

  lemma GroupsGrow(groups: seq<Group>, votes: seq<Vote>, fp: Fingerprint, v: Vote)
    requires GroupsOf(groups, votes, fp)
    ensures GroupsOf(Grouped(groups, fp(v.value), v.provider), votes + [v], fp)
  {
    CampsGrow(groups, votes, fp, v);
    CoverGrows(groups, votes, fp, v);
    OrderGrows(groups, votes, fp, v);
  }

  lemma NoGroups(votes: seq<Vote>, fp: Fingerprint)
    ensures GroupsOf([], votes[..0], fp)
  {
  }

  lemma GroupsStep(groups: seq<Group>, votes: seq<Vote>, fp: Fingerprint, i: nat)
    requires i < |votes| && GroupsOf(groups, votes[..i], fp)
    ensures GroupsOf(Grouped(groups, fp(votes[i].value), votes[i].provider), votes[..i + 1], fp)
  {
    assert votes[..i + 1] == votes[..i] + [votes[i]];
    GroupsGrow(groups, votes[..i], fp, votes[i]);
  }

  /** The first group with a majority is the camp of the winning vote. */
  lemma FirstBigGroupWins(groups: seq<Group>, votes: seq<Vote>, fp: Fingerprint, q: int, a: nat)
    requires GroupsOf(groups, votes, fp) && a < |groups| && |groups[a].members| >= q
    requires forall b :: 0 <= b < a ==> |groups[b].members| < q
    ensures var k := Opening(votes, fp, groups[a].mark);
            k < |votes| && Winner(votes, fp, q, 0) == Some(k) && groups[a].members[0] == votes[k].provider
  {
    var k := Opening(votes, fp, groups[a].mark);
    CampEmptyIffAbsent(votes, fp, groups[a].mark);
    forall j | 0 <= j < k ensures Count(votes, fp, fp(votes[j].value)) < q {
      assert HasGroup(groups, fp(votes[j].value));
      var b :| 0 <= b < |groups| && groups[b].mark == fp(votes[j].value);
      assert Opening(votes, fp, groups[b].mark) <= j;
      assert b < a;
    }
    WinnerIs(votes, fp, q, k);
  }

  lemma NoBigGroupNoWinner(groups: seq<Group>, votes: seq<Vote>, fp: Fingerprint, q: int)
    requires GroupsOf(groups, votes, fp) && forall b :: 0 <= b < |groups| ==> |groups[b].members| < q
    ensures Winner(votes, fp, q, 0) == None
  {
    WinnerInRange(votes, fp, q, 0);
    if Winner(votes, fp, q, 0).Some? {
      WinnerHasGroup(groups, votes, fp, q);
    }
  }

  /** The winning vote's camp is one of the groups. */
  lemma WinnerHasGroup(groups: seq<Group>, votes: seq<Vote>, fp: Fingerprint, q: int)
    requires GroupsOf(groups, votes, fp) && Winner(votes, fp, q, 0).Some?
    ensures exists a :: 0 <= a < |groups| && |groups[a].members| >= q
  {
    WinnerInRange(votes, fp, q, 0);
    var k := Winner(votes, fp, q, 0).value;
    assert HasGroup(groups, fp(votes[k].value));
    var a :| 0 <= a < |groups| && groups[a].mark == fp(votes[k].value);
    assert |groups[a].members| == Count(votes, fp, groups[a].mark);
  }

  function Lookup(votes: seq<Vote>, p: NodeId): seq<Json>
    requires HasVoted(votes, p)
  {
    if votes[0].provider == p then votes[0].value else
      assert HasVoted(votes[1..], p) by {
        var i :| 0 <= i < |votes| && votes[i].provider == p;
        assert votes[1..][i - 1].provider == p;
      }
      Lookup(votes[1..], p)
  }

  lemma {:induction false} LookupFinds(votes: seq<Vote>, k: nat)
    requires k < |votes| && forall i, j :: 0 <= i < j < |votes| ==> votes[i].provider != votes[j].provider
    ensures HasVoted(votes, votes[k].provider) && Lookup(votes, votes[k].provider) == votes[k].value
  {
    if k > 0 {
      assert votes[1..][k - 1] == votes[k];
      LookupFinds(votes[1..], k - 1);
    }
  }

  /** `x` voted for something of another fingerprint. */
  ghost predicate VotedAgainst(votes: seq<Vote>, fp: Fingerprint, result: seq<Json>, x: NodeId) {
    exists n :: 0 <= n < |votes| && votes[n].provider == x && fp(votes[n].value) != fp(result)
  }

  function Dissenters(votes: seq<Vote>, fp: Fingerprint, f: nat): set<NodeId> {
    set i | 0 <= i < |votes| && fp(votes[i].value) != f :: votes[i].provider
  }

  lemma CompleteKeeps(c: Chunk, redundancy: int, fp: Fingerprint, p: NodeId, value: seq<Json>)
    requires redundancy >= 1 && Sane(c, redundancy, fp) && p in c.inFlight
    ensures var votes := Put(c.votes, p, value);
            && (forall i, j :: 0 <= i < j < |votes| ==> votes[i].provider != votes[j].provider)
            && (Winner(votes, fp, Majority(redundancy), 0) == None ==> c.accepted == None)
  {
    SaneCompleted(c, redundancy, fp, p, value);
    WinnerInRange(Put(c.votes, p, value), fp, Majority(redundancy), 0);
    if c.accepted.Some? {
      var c' := Completed(c, redundancy, fp, p, value);
      var k: nat :| Decided(c', fp, Majority(redundancy), k);
      assert Count(c'.votes, fp, fp(c'.votes[k].value)) >= Majority(redundancy);
    }
  }

  // ---------------------------------------------------------------- the object

  class Scheduler {
    const redundancy: int
    const fp: Fingerprint
    var chunks: seq<Chunk>

    ghost predicate Valid()
      reads this
    {
      redundancy >= 1 && AllSane(chunks, redundancy, fp)
    }

    constructor (work: seq<seq<Json>>, redundancy: int, fp: Fingerprint)
      requires redundancy >= 1
      ensures Valid() && this.redundancy == redundancy && this.fp == fp
      ensures chunks == seq(|work|, i requires 0 <= i < |work| => Fresh(work[i], redundancy))
    {
      this.redundancy, this.fp := redundancy, fp;
      chunks := seq(|work|, i requires 0 <= i < |work| => Fresh(work[i], redundancy));
      new;
      forall i | 0 <= i < |chunks| ensures Sane(chunks[i], redundancy, fp) {
        SaneFresh(work[i], redundancy, fp);
      }
    }

    method Done() returns (done: bool)
      ensures done <==> forall i :: 0 <= i < |chunks| ==> chunks[i].accepted.Some?
    {
      for i := 0 to |chunks|
        invariant forall j :: 0 <= j < i ==> chunks[j].accepted.Some?
      {
        if chunks[i].accepted.None? {
          return false;
        }
      }
      return true;
    }

    method Acquire(p: NodeId) returns (chunk: Option<nat>)
      requires Valid()
      modifies this
      ensures Valid() && chunks == Play(old(chunks), redundancy, fp, Take(p))
      ensures chunk == FirstEligible(old(chunks), p, 0)
      ensures chunk.Some? ==> chunk.value < |chunks| && p in chunks[chunk.value].inFlight
    {
      PlayKeeps(chunks, redundancy, fp, Take(p));
      FirstEligibleMeans(chunks, p, 0);
      for i := 0 to |chunks|
        invariant chunks == old(chunks)
        invariant forall j :: 0 <= j < i ==> !Eligible(chunks[j], p)
      {
        var c := chunks[i];
        if c.accepted.Some? || p in c.inFlight {
          continue;
        }
        if HasVoted(c.votes, p) || Attempts(c, p) >= MAX_ATTEMPTS_PER_PROVIDER {
          continue;
        }
        if |c.votes| + |c.inFlight| >= c.needed {
          continue;
        }
        chunks := chunks[i := Acquired(c, p)];
        return Some(i);
      }
      return None;
    }

    /** The dictionary of fingerprints, filled vote by vote. */
    method Fingerprints(votes: seq<Vote>) returns (groups: seq<Group>)
      ensures GroupsOf(groups, votes, fp)
    {
      var mark := fp;
      groups := [];
      NoGroups(votes, mark);
      for i := 0 to |votes|
        invariant GroupsOf(groups, votes[..i], mark)
      {
        GroupsStep(groups, votes, mark, i);
        groups := Grouped(groups, mark(votes[i].value), votes[i].provider);
      }
      assert votes[..|votes|] == votes;
    }

    /** The first group large enough carries the vote. */
    method Tally(votes: seq<Vote>) returns (result: Option<seq<Json>>, losers: set<NodeId>)
      requires forall i, j :: 0 <= i < j < |votes| ==> votes[i].provider != votes[j].provider
      ensures match Winner(votes, fp, Majority(redundancy), 0)
              case Some(k) => k < |votes| && result == Some(votes[k].value) && losers == Dissenters(votes, fp, fp(votes[k].value))
              case None => result == None && losers == {}
    {
      var groups := Fingerprints(votes);
      var q := Majority(redundancy);
      for a := 0 to |groups|
        invariant forall b :: 0 <= b < a ==> |groups[b].members| < q
      {
        if |groups[a].members| >= q {
          FirstBigGroupWins(groups, votes, fp, q, a);
          LookupFinds(votes, Opening(votes, fp, groups[a].mark));
          return Some(Lookup(votes, groups[a].members[0])), Dissenters(votes, fp, groups[a].mark);
        }
      }
      NoBigGroupNoWinner(groups, votes, fp, q);
      return None, {};
    }

    method Complete(i: nat, p: NodeId, value: seq<Json>) returns (losers: set<NodeId>)
      requires Valid() && i < |chunks| && p in chunks[i].inFlight
      modifies this
      ensures Valid() && chunks == Play(old(chunks), redundancy, fp, Finish(i, p, value))
      ensures match chunks[i].accepted
              case Some(result) => forall x :: x in losers <==> VotedAgainst(chunks[i].votes, fp, result, x)
              case None => losers == {}
    {
      PlayKeeps(chunks, redundancy, fp, Finish(i, p, value));
      CompleteKeeps(chunks[i], redundancy, fp, p, value);
      var c := chunks[i];
      c := c.(inFlight := c.inFlight - {p}, votes := Put(c.votes, p, value));
      var result;
      result, losers := Tally(c.votes);
      if result.Some? {
        c := c.(accepted := result);
      } else if |c.votes| >= c.needed && c.needed < redundancy + MAX_EXTRA_ROUNDS {
        c := c.(needed := c.needed + 1);
      }
      assert c == Completed(chunks[i], redundancy, fp, p, value);
      chunks := chunks[i := c];
    }

    method Fail(i: nat, p: NodeId)
      requires Valid() && i < |chunks| && p in chunks[i].inFlight
      modifies this
      ensures Valid() && chunks == Play(old(chunks), redundancy, fp, Drop(i, p))
    {
      PlayKeeps(chunks, redundancy, fp, Drop(i, p));
      chunks := chunks[i := Failed(chunks[i], p)];
    }
  }
}
