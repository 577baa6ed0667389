/** One transformer across many providers: the layers are cut into contiguous slices, every slice is run
    by several providers and put to a vote, and the tokens come out as if the model had run locally. */
module Sharding {
  import opened Basics
  import opened Transformer

  datatype Slice = Slice(provider: nat, start: nat, end: nat)

  // ---------------------------------------------------------------- the plan

  function Stages(layers: int, providers: nat, maxStages: int): int {
    var stages := Min(layers, providers);
    if maxStages != 0 then Min(stages, maxStages) else stages
  }

  /** The slices follow one another from layer 0 to the last. */
  ghost predicate GapFree(plan: seq<Slice>, layers: nat)
  {
    && plan != [] && plan[0].start == 0 && plan[|plan| - 1].end == layers
    && (forall i :: 0 <= i < |plan| ==> plan[i].start < plan[i].end)
    && forall i :: 0 <= i < |plan| - 1 ==> plan[i].end == plan[i + 1].start
  }

  ghost predicate Balanced(plan: seq<Slice>) {
    forall i, j :: 0 <= i < |plan| && 0 <= j < |plan| ==>
      plan[i].end - plan[i].start <= plan[j].end - plan[j].start + 1
  }

  /** Where slice `i` starts when `extra` slices are one layer wider. */
  function StartOf(i: nat, base: nat, extra: nat): nat {
    i * base + Min(i, extra)
  }

  lemma NextStart(i: nat, base: nat, extra: nat)
    ensures StartOf(i + 1, base, extra) == StartOf(i, base, extra) + base + if i < extra then 1 else 0
  {
  }

  ghost predicate AreCuts(slices: seq<Slice>, providers: seq<nat>, base: nat, extra: nat)
  {
    |slices| <= |providers| && forall k :: 0 <= k < |slices| ==>
      && slices[k].provider == providers[k]
      && slices[k].start == StartOf(k, base, extra) && slices[k].end == StartOf(k + 1, base, extra)
  }

  lemma DivisionFits(layers: nat, stages: nat)
    requires 1 <= stages <= layers
    ensures layers / stages >= 1 && StartOf(stages, layers / stages, layers % stages) == layers
  {
    assert layers == stages * (layers / stages) + layers % stages;
    SmallProduct(stages, layers / stages);
  }

  lemma SmallProduct(stages: nat, q: nat)
    ensures q < 1 ==> stages * q == 0
  {
  }

  lemma SmallModulus(i: nat, n: nat)
    requires i < n
    ensures i % n == i
  {
  }

  /** `Error` is the missing provider, or the division by zero stages. A negative stage limit yields the
      empty plan; every other one a gap-free, balanced plan over pairwise different providers. */
  method PlanShards(layers: nat, providers: seq<nat>, maxStages: int) returns (plan: Outcome<seq<Slice>>)
    ensures plan == Error <==> providers == [] || Stages(layers, |providers|, maxStages) == 0
    ensures plan.Ok? && maxStages < 0 ==> plan.value == []
    ensures plan.Ok? && maxStages >= 0 ==>
              && GapFree(plan.value, layers) && Balanced(plan.value)
              && |plan.value| == Stages(layers, |providers|, maxStages)
              && (forall i :: 0 <= i < |plan.value| ==> i < |providers| && plan.value[i].provider == providers[i])
  {
    if providers == [] {
      return Error;
    }
    var stages := Stages(layers, |providers|, maxStages);
    if stages == 0 {
      return Error;
    }
    if stages < 0 {
      return Ok([]);
    }
    var base, extra := layers / stages, layers % stages;
    DivisionFits(layers, stages);
    var slices: seq<Slice> := [];
    var layer := 0;
    for i := 0 to stages
      invariant layer == StartOf(i, base, extra) && |slices| == i && AreCuts(slices, providers, base, extra)
    {
      NextStart(i, base, extra);
      var width := base + if i < extra then 1 else 0;
      SmallModulus(i, |providers|);
      slices := slices + [Slice(providers[i % |providers|], layer, layer + width)];
      layer := layer + width;
    }
    CutsAreGood(slices, providers, base, extra, layers);
    return Ok(slices);
  }

  lemma CutsAreGood(slices: seq<Slice>, providers: seq<nat>, base: nat, extra: nat, layers: nat)
    requires slices != [] && base >= 1 && StartOf(|slices|, base, extra) == layers
    requires AreCuts(slices, providers, base, extra)
    ensures GapFree(slices, layers) && Balanced(slices)
  {
    assert StartOf(0, base, extra) == 0;
    forall k | 0 <= k < |slices| ensures base <= slices[k].end - slices[k].start <= base + 1 {
      NextStart(k, base, extra);
    }
  }

  /** Running a gap-free plan slice by slice is running the whole model. */
  function RunPlan(m: Model, plan: seq<Slice>, hidden: Matrix): Matrix
    requires forall i :: 0 <= i < |plan| ==> plan[i].start <= plan[i].end
  {
    if plan == [] then hidden
    else
      var last := plan[|plan| - 1];
      Layers(m, last.start, last.end, RunPlan(m, plan[..|plan| - 1], hidden))
  }

  lemma {:induction false} PlanIsWholeModel(m: Model, plan: seq<Slice>, layers: nat, hidden: Matrix)
    requires GapFree(plan, layers)
    ensures RunPlan(m, plan, hidden) == Layers(m, 0, layers, hidden)
    decreases |plan|
  {
    var front, last := plan[..|plan| - 1], plan[|plan| - 1];
    if front == [] {
      assert RunPlan(m, front, hidden) == hidden == Layers(m, 0, 0, hidden);
    } else {
      PlanIsWholeModel(m, front, last.start, hidden);
      LayersCompose(m, 0, last.start, last.end, hidden);
    }
  }

  // ---------------------------------------------------------------- the vote on one stage

  /** What the vote knows about one distinct answer, in the order first heard. */
  datatype Tally<F> = Tally(mark: F, votes: nat, value: Matrix)

  /** How many of the answers are exactly `x`. */
  function Same(answers: seq<Outcome<Matrix>>, x: Matrix): nat
  {
    if answers == [] then 0
    else Same(answers[..|answers| - 1], x) + if answers[|answers| - 1] == Ok(x) then 1 else 0
  }

  /** How many are answers but not `x`. */
  function Wrong(answers: seq<Outcome<Matrix>>, x: Matrix): nat
  {
    if answers == [] then 0
    else
      var a := answers[|answers| - 1];
      Wrong(answers[..|answers| - 1], x) + if a.Ok? && a.value != x then 1 else 0
  }

  lemma {:induction false} SameIsWrong(answers: seq<Outcome<Matrix>>, x: Matrix, right: Matrix)
    requires x != right
    ensures Same(answers, x) <= Wrong(answers, right)
  {
    if answers != [] {
      SameIsWrong(answers[..|answers| - 1], x, right);
    }
  }

  lemma {:induction false} SameGrows(answers: seq<Outcome<Matrix>>, n: nat, x: Matrix)
    requires n <= |answers|
    ensures Same(answers[..n], x) <= Same(answers, x)
    decreases |answers|
  {
    if n < |answers| {
      var front := answers[..|answers| - 1];
      assert front[..n] == answers[..n];
      SameGrows(front, n, x);
    } else {
      assert answers[..n] == answers;
    }
  }

  lemma SameAppend(answers: seq<Outcome<Matrix>>, a: Outcome<Matrix>, x: Matrix)
    ensures Same(answers + [a], x) == Same(answers, x) + if a == Ok(x) then 1 else 0
  {
    assert (answers + [a])[..|answers|] == answers;
  }

  ghost predicate InjectiveMark<F>(fp: Matrix -> F) {
    forall x, y :: fp(x) == fp(y) ==> x == y
  }

  /** Such marks exist: the answer itself is one. */
  lemma MarksExist()
    ensures InjectiveMark((x: Matrix) => x)
  {
  }

  ghost predicate Told<F>(tallies: seq<Tally<F>>, x: Matrix) {
    exists k :: 0 <= k < |tallies| && tallies[k].value == x
  }

  /** One tally for each distinct answer, with its exact number of votes. */
  ghost predicate Tallied<F>(tallies: seq<Tally<F>>, answers: seq<Outcome<Matrix>>, fp: Matrix -> F)
  {
    && (forall k :: 0 <= k < |tallies| ==>
          tallies[k].mark == fp(tallies[k].value) && tallies[k].votes == Same(answers, tallies[k].value) >= 1)
    && (forall j, k :: 0 <= j < k < |tallies| ==> tallies[j].mark != tallies[k].mark)
    && forall x :: Same(answers, x) >= 1 ==> Told(tallies, x)
  }

  function FindTally<F(==)>(tallies: seq<Tally<F>>, f: F): (k: nat)
    ensures k <= |tallies| && (k < |tallies| ==> tallies[k].mark == f)
    ensures k == |tallies| ==> forall j :: 0 <= j < |tallies| ==> tallies[j].mark != f
  {
    if tallies == [] then 0 else if tallies[0].mark == f then 0 else 1 + FindTally(tallies[1..], f)
  }

  function Vote<F(==)>(tallies: seq<Tally<F>>, f: F, x: Matrix): seq<Tally<F>>
  {
    var k := FindTally(tallies, f);
    if k < |tallies| then tallies[k := Tally(f, tallies[k].votes + 1, x)] else tallies + [Tally(f, 1, x)]
  }

  lemma VoteTallied<F>(tallies: seq<Tally<F>>, answers: seq<Outcome<Matrix>>, fp: Matrix -> F, x: Matrix)
    requires InjectiveMark(fp) && Tallied(tallies, answers, fp)
    ensures Tallied(Vote(tallies, fp(x), x), answers + [Ok(x)], fp)
  {
    var at, out := FindTally(tallies, fp(x)), Vote(tallies, fp(x), x);
    assert Same(answers, x) >= 1 ==> Told(tallies, x);
    forall k | 0 <= k < |out|
      ensures out[k].mark == fp(out[k].value) && out[k].votes == Same(answers + [Ok(x)], out[k].value) >= 1
    {
      SameAppend(answers, Ok(x), out[k].value);
    }
    forall y | Same(answers + [Ok(x)], y) >= 1 ensures Told(out, y) {
      SameAppend(answers, Ok(x), y);
      if y == x {
        assert out[at].value == x;
      } else {
        assert Told(tallies, y);
        var k :| 0 <= k < |tallies| && tallies[k].value == y;
        assert out[k].value == y;
      }
    }
  }

  lemma SkipTallied<F>(tallies: seq<Tally<F>>, answers: seq<Outcome<Matrix>>, fp: Matrix -> F)
    requires Tallied(tallies, answers, fp)
    ensures Tallied(tallies, answers + [Error], fp)
  {
    forall x ensures Same(answers + [Error], x) == Same(answers, x) {
      SameAppend(answers, Error, x);
    }
  }

  function Answers(candidates: seq<nat>, ask: nat -> Outcome<Matrix>): seq<Outcome<Matrix>> {
    seq(|candidates|, i requires 0 <= i < |candidates| => ask(candidates[i]))
  }

  function Quorum(redundancy: int): nat {
    (if redundancy < 1 then 1 else redundancy) / 2 + 1
  }

  /** Enough providers give the right answer, and fewer than that give a wrong one. */
  ghost predicate HonestMajority(answers: seq<Outcome<Matrix>>, right: Matrix, quorum: nat) {
    Same(answers, right) >= quorum && Wrong(answers, right) < quorum
  }

  function MostVotes<F>(tallies: seq<Tally<F>>): (k: nat)
    requires tallies != []
    ensures k < |tallies|
  {
    if |tallies| == 1 then 0
    else
      var best := MostVotes(tallies[..|tallies| - 1]);
      if tallies[|tallies| - 1].votes > tallies[best].votes then |tallies| - 1 else best
  }

  /** The plurality: the first of the tallies with the most votes, as `max` picks it. */
  lemma {:induction false} MostVotesMeans<F>(tallies: seq<Tally<F>>)
    requires tallies != []
    ensures var k := MostVotes(tallies);
            && (forall i :: 0 <= i < |tallies| ==> tallies[i].votes <= tallies[k].votes)
            && forall i :: 0 <= i < k ==> tallies[i].votes < tallies[k].votes
  {
    if |tallies| > 1 {
      MostVotesMeans(tallies[..|tallies| - 1]);
    }
  }

  lemma QuorumIs(redundancy: int)
    ensures Quorum(redundancy) == if redundancy <= 1 then 1 else redundancy / 2 + 1
  {
  }

  /** The votes over the first `n` answers, and the last answer that reached the quorum. */
  ghost predicate Polled<F>(tallies: seq<Tally<F>>, winner: Outcome<nat>, answers: seq<Outcome<Matrix>>, fp: Matrix -> F,
                         quorum: nat)
  {
    && Tallied(tallies, answers, fp)
    && (winner == Error ==> forall k :: 0 <= k < |tallies| ==> tallies[k].votes < quorum)
    && (winner.Ok? ==> winner.value < |tallies| && tallies[winner.value].votes >= quorum)
  }

  function Updated<F(==)>(tallies: seq<Tally<F>>, winner: Outcome<nat>, f: F, x: Matrix, quorum: nat): Outcome<nat>
  {
    var after, k := Vote(tallies, f, x), FindTally(tallies, f);
    if after[k].votes >= quorum then Ok(k) else winner
  }

  lemma PolledVote<F>(tallies: seq<Tally<F>>, winner: Outcome<nat>, answers: seq<Outcome<Matrix>>, fp: Matrix -> F,
                   quorum: nat, x: Matrix)
    requires InjectiveMark(fp) && Polled(tallies, winner, answers, fp, quorum)
    ensures Polled(Vote(tallies, fp(x), x), Updated(tallies, winner, fp(x), x, quorum), answers + [Ok(x)], fp, quorum)
  {
    VoteTallied(tallies, answers, fp, x);
  }

  /** Different values among the answers. */
  function Values(answers: seq<Outcome<Matrix>>): set<Matrix> {
    set a | a in answers && a.Ok? :: a.value
  }

  /** When polling stops: some answer has a quorum, and as many different answers are in as executions were
      wanted. */
  ghost predicate Enough(answers: seq<Outcome<Matrix>>, needed: int, quorum: nat) {
    |Values(answers)| >= needed && exists x :: Same(answers, x) >= quorum
  }

  lemma PolledMeans<F>(tallies: seq<Tally<F>>, winner: Outcome<nat>, answers: seq<Outcome<Matrix>>, fp: Matrix -> F,
                       needed: int, quorum: nat)
    requires quorum >= 1 && Polled(tallies, winner, answers, fp, quorum)
    ensures |tallies| >= needed && winner.Ok? <==> Enough(answers, needed, quorum)
  {
    TallyValues(tallies, answers, fp);
    if winner.Ok? {
      assert Same(answers, tallies[winner.value].value) >= quorum;
    } else {
      forall x ensures Same(answers, x) < quorum {
        assert Same(answers, x) >= 1 ==> Told(tallies, x);
      }
    }
  }

  ghost function TallySet<F>(tallies: seq<Tally<F>>): set<Matrix> {
    set t | t in tallies :: t.value
  }

  /** There is one tally for each value. */
  lemma TallyValues<F>(tallies: seq<Tally<F>>, answers: seq<Outcome<Matrix>>, fp: Matrix -> F)
    requires Tallied(tallies, answers, fp)
    ensures |Values(answers)| == |tallies|
  {
    var told := TallySet(tallies);
    forall x ensures x in told <==> x in Values(answers) {
      AnsweredExactly(answers, x);
      if x in told {
        var t :| t in tallies && t.value == x;
        var k: nat :| k < |tallies| && tallies[k] == t;
      } else if Same(answers, x) >= 1 {
        assert Told(tallies, x);
      }
    }
    assert told == Values(answers);
    DistinctValues(tallies, fp);
  }

  lemma {:induction false} AnsweredExactly(answers: seq<Outcome<Matrix>>, x: Matrix)
    ensures x in Values(answers) <==> Same(answers, x) >= 1
  {
    if answers != [] {
      var front, last := answers[..|answers| - 1], answers[|answers| - 1];
      assert answers == front + [last];
      AnsweredExactly(front, x);
      assert x in Values(answers) <==> x in Values(front) || last == Ok(x) by {
        if x in Values(answers) {
          var a :| a in answers && a.Ok? && a.value == x;
        }
      }
    }
  }

  lemma {:induction false} DistinctValues<F>(tallies: seq<Tally<F>>, fp: Matrix -> F)
    requires forall k :: 0 <= k < |tallies| ==> tallies[k].mark == fp(tallies[k].value)
    requires forall j, k :: 0 <= j < k < |tallies| ==> tallies[j].mark != tallies[k].mark
    ensures |TallySet(tallies)| == |tallies|
  {
    if tallies != [] {
      var n := |tallies| - 1;
      var front := tallies[..n];
      DistinctValues(front, fp);
      var before, all := TallySet(front), TallySet(tallies);
      assert tallies == front + [tallies[n]];
      assert all == before + {tallies[n].value};
      forall k: nat | k < |front| ensures front[k].value != tallies[n].value {
        assert tallies[k].mark != tallies[n].mark;
      }
    } else {
      assert TallySet(tallies) == {};
    }
  }

  /** Answers are counted by their kinds when polling stops, so providers that all agree never stop it: every
      one of them is asked, and paid, as soon as two executions are wanted. */
  lemma AgreementAsksEverybody(answers: seq<Outcome<Matrix>>, x: Matrix, n: nat, needed: int, quorum: nat)
    requires needed >= 2 && n <= |answers| && forall i :: 0 <= i < |answers| ==> answers[i] == Ok(x)
    ensures !Enough(answers[..n], needed, quorum)
  {
    assert Values(answers[..n]) <= {x};
    SubsetSize(Values(answers[..n]), {x});
  }

  /** Candidate after candidate, until there is a winner and as many distinct answers as executions were
      wanted. */
  method Poll<F(==)>(candidates: seq<nat>, ask: nat -> Outcome<Matrix>, needed: int, quorum: nat, fp: Matrix -> F)
    returns (tallies: seq<Tally<F>>, winner: Outcome<nat>, n: nat)
    requires InjectiveMark(fp) && quorum >= 1
    ensures n <= |candidates| && Polled(tallies, winner, Answers(candidates, ask)[..n], fp, quorum)
    ensures n < |candidates| ==> Enough(Answers(candidates, ask)[..n], needed, quorum)
    ensures forall m :: 0 <= m < n ==> !Enough(Answers(candidates, ask)[..m], needed, quorum)
    ensures winner == Error ==> n == |candidates|
  {
    ghost var answers := Answers(candidates, ask);
    tallies, winner, n := [], Error, 0;
    while n < |candidates|
      invariant n <= |candidates| && Polled(tallies, winner, answers[..n], fp, quorum)
      invariant NotBefore(answers, n, needed, quorum)
    {
      PolledMeans(tallies, winner, answers[..n], fp, needed, quorum);
      if |tallies| >= needed && winner.Ok? {
        break;
      }
      var answer := ask(candidates[n]);
      OneAnswerMore(tallies, winner, answers, n, fp, quorum);
      NotYet(answers, n, needed, quorum);
      match answer {
        case Error =>
        case Ok(x) =>
          tallies, winner := Vote(tallies, fp(x), x), Updated(tallies, winner, fp(x), x, quorum);
      }
      n := n + 1;
    }
  }

  /** The poll could not have ended before answer `n`. */
  ghost predicate NotBefore(answers: seq<Outcome<Matrix>>, n: nat, needed: int, quorum: nat)
    requires n <= |answers|
  {
    forall m :: 0 <= m < n ==> !Enough(answers[..m], needed, quorum)
  }

  lemma NotYet(answers: seq<Outcome<Matrix>>, n: nat, needed: int, quorum: nat)
    requires n < |answers| && NotBefore(answers, n, needed, quorum) && !Enough(answers[..n], needed, quorum)
    ensures NotBefore(answers, n + 1, needed, quorum)
  {
  }

  lemma OneAnswerMore<F>(tallies: seq<Tally<F>>, winner: Outcome<nat>, answers: seq<Outcome<Matrix>>, n: nat, fp: Matrix -> F,
                         quorum: nat)
    requires InjectiveMark(fp) && n < |answers| && Polled(tallies, winner, answers[..n], fp, quorum)
    ensures match answers[n]
            case Error => Polled(tallies, winner, answers[..n + 1], fp, quorum)
            case Ok(x) => Polled(Vote(tallies, fp(x), x), Updated(tallies, winner, fp(x), x, quorum), answers[..n + 1], fp, quorum)
  {
    assert answers[..n + 1] == answers[..n] + [answers[n]];
    match answers[n]
    case Error => SkipTallied(tallies, answers[..n], fp);
    case Ok(x) => PolledVote(tallies, winner, answers[..n], fp, quorum, x);
  }

  /** The first `n` candidates were asked: the poll ended there, or everybody was asked, and it would not
      have ended earlier. */
  ghost predicate PolledTo(answers: seq<Outcome<Matrix>>, n: nat, redundancy: int)
    requires n <= |answers|
  {
    var needed := if redundancy < 1 then 1 else redundancy;
    && (n < |answers| ==> Enough(answers[..n], needed, needed / 2 + 1))
    && forall m :: 0 <= m < n ==> !Enough(answers[..m], needed, needed / 2 + 1)
  }

  /** An honest majority wins; whatever is returned somebody answered; and a stage counted as verified
      was answered alike by two candidates. */
  method RunStage<F(==)>(candidates: seq<nat>, ask: nat -> Outcome<Matrix>, redundancy: int, fp: Matrix -> F)
    returns (result: Outcome<Matrix>, verified: bool, ghost n: nat)
    requires InjectiveMark(fp)
    ensures n <= |candidates| && PolledTo(Answers(candidates, ask), n, redundancy)
    ensures verified <==> redundancy > 1 && result.Ok? && Same(Answers(candidates, ask)[..n], result.value) >= 2
    ensures result.Ok? ==> Same(Answers(candidates, ask), result.value) >= 1
    ensures result == Error ==> forall x :: Same(Answers(candidates, ask), x) == 0
    ensures verified ==> redundancy > 1 && result.Ok? && Same(Answers(candidates, ask), result.value) >= 2
    ensures forall right :: HonestMajority(Answers(candidates, ask), right, Quorum(redundancy)) ==> result == Ok(right)
    ensures result.Ok? && Same(Answers(candidates, ask), result.value) < Quorum(redundancy) ==>
              forall x :: Same(Answers(candidates, ask), x) <= Same(Answers(candidates, ask), result.value)
  {
    var needed, quorum := if redundancy < 1 then 1 else redundancy, Quorum(redundancy);
    ghost var answers := Answers(candidates, ask);
    var tallies, winner, asked := Poll(candidates, ask, needed, quorum, fp);
    n := asked;
    if winner == Error && tallies == [] {
      assert answers[..n] == answers;
      NobodyAnswered(answers, fp);
      NobodyHonest(answers, quorum);
      return Error, false, n;
    }
    var best := if winner.Ok? then winner.value else MostVotes(tallies);
    StageIsRight(tallies, answers, n, fp, quorum, best, winner);
    if winner == Error {
      PluralityWins(tallies, answers, n, fp);
    }
    SameGrows(answers, n, tallies[best].value);
    return Ok(tallies[best].value), redundancy > 1 && tallies[best].votes >= 2, n;
  }

  lemma NobodyAnswered<F>(answers: seq<Outcome<Matrix>>, fp: Matrix -> F)
    requires Tallied([], answers, fp)
    ensures forall x :: Same(answers, x) == 0
  {
    forall x ensures Same(answers, x) == 0 {
      assert Same(answers, x) >= 1 ==> Told<F>([], x);
    }
  }

  /** Without a quorum everybody was asked, and no answer is commoner than the one returned. */
  lemma PluralityWins<F>(tallies: seq<Tally<F>>, answers: seq<Outcome<Matrix>>, n: nat, fp: Matrix -> F)
    requires n == |answers| && Tallied(tallies, answers[..n], fp) && tallies != []
    ensures forall x :: Same(answers, x) <= Same(answers, tallies[MostVotes(tallies)].value)
  {
    assert answers[..n] == answers;
    MostVotesMeans(tallies);
    forall x ensures Same(answers, x) <= Same(answers, tallies[MostVotes(tallies)].value) {
      assert Same(answers, x) >= 1 ==> Told(tallies, x);
    }
  }

  lemma NobodyHonest(answers: seq<Outcome<Matrix>>, quorum: nat)
    requires quorum >= 1 && forall x :: Same(answers, x) == 0
    ensures forall right :: !HonestMajority(answers, right, quorum)
  {
  }

  lemma StageIsRight<F>(tallies: seq<Tally<F>>, answers: seq<Outcome<Matrix>>, n: nat, fp: Matrix -> F, quorum: nat,
                     best: nat, winner: Outcome<nat>)
    requires n <= |answers| && Tallied(tallies, answers[..n], fp) && best < |tallies| && quorum >= 1
    requires winner.Ok? ==> best == winner.value && tallies[best].votes >= quorum
    requires winner == Error ==> n == |answers| && forall k :: 0 <= k < |tallies| ==> tallies[k].votes < quorum
    ensures forall right :: HonestMajority(answers, right, quorum) ==> tallies[best].value == right
  {
    forall right | HonestMajority(answers, right, quorum) ensures tallies[best].value == right {
      assert answers[..|answers|] == answers;
      assert Same(answers[..n], right) >= 1 ==> Told(tallies, right);
      if tallies[best].value != right {
        SameGrows(answers, n, tallies[best].value);
        SameIsWrong(answers, tallies[best].value, right);
      }
    }
  }

  // ---------------------------------------------------------------- generation

  /** `tokens[-max_seq:]`, where a limit of zero keeps everything. */
  function Window(tokens: seq<nat>, maxSeq: nat): seq<nat> {
    if maxSeq == 0 || |tokens| <= maxSeq then tokens else tokens[|tokens| - maxSeq..]
  }

  /** The last `maxSeq` tokens, or all of them. */
  lemma WindowIs(tokens: seq<nat>, maxSeq: nat)
    ensures var w := Window(tokens, maxSeq);
            && |w| == (if maxSeq == 0 || |tokens| < maxSeq then |tokens| else maxSeq)
            && forall i :: 0 <= i < |w| ==> w[i] == tokens[|tokens| - |w| + i]
  {
  }

  function NextLocal(m: Model, hidden: Matrix): Outcome<nat>
  {
    if hidden == [] || m.head == [] then Error else Ok(Greedy(Logits(m, hidden)))
  }

  function Extend(m: Model, tokens: seq<nat>): Outcome<seq<nat>>
    requires |m.table| >= 1
  {
    match RunLayers(m, 0, m.layers, Embed(m, Window(tokens, m.maxSeq)))
    case Error => Error
    case Ok(hidden) =>
      match NextLocal(m, hidden)
      case Error => Error
      case Ok(token) => Ok(tokens + [token])
  }

  function Repeat<T>(f: T -> Outcome<T>, x: T, count: nat): Outcome<T>
  {
    if count == 0 then Ok(x)
    else
      match Repeat(f, x, count - 1)
      case Error => Error
      case Ok(y) => f(y)
  }

  lemma {:induction false} RepeatFails<T>(f: T -> Outcome<T>, x: T, k: nat, count: nat)
    requires k <= count && Repeat(f, x, k) == Error
    ensures Repeat(f, x, count) == Error
    decreases count
  {
    if k < count {
      RepeatFails(f, x, k, count - 1);
    }
  }

  function OneToken(m: Model): seq<nat> -> Outcome<seq<nat>>
    requires |m.table| >= 1
  {
    (tokens: seq<nat>) => Extend(m, tokens)
  }

  /** Greedy generation on one machine that holds every layer: the prompt and the tokens after it. */
  function LocalTokens(m: Model, prompt: seq<nat>, count: nat): Outcome<seq<nat>>
    requires |m.table| >= 1
  {
    Repeat(OneToken(m), prompt, count)
  }

  /** What is generated: exactly `count` tokens after the prompt, each the greedy choice after the last
      `maxSeq` tokens before it. */
  lemma GeneratedAreGreedy(m: Model, prompt: seq<nat>, count: nat)
    requires |m.table| >= 1 && LocalTokens(m, prompt, count).Ok?
    ensures GreedyAfter(m, prompt, count, LocalTokens(m, prompt, count).value)
  {
    var good := (k: nat, tokens: seq<nat>) => GreedyAfter(m, prompt, k, tokens);
    var f := OneToken(m);
    forall k: nat, tokens ensures Keeps(f, good, k, tokens) {
      if good(k, tokens) && f(tokens).Ok? {
        GreedyOnceMore(m, prompt, k, tokens, f(tokens).value);
      }
    }
    NothingAfter(m, prompt);
    RepeatKeeps(f, good, prompt, count);
  }

  /** `tokens` are the prompt and `k` greedy choices after it. */
  ghost predicate GreedyAfter(m: Model, prompt: seq<nat>, k: nat, tokens: seq<nat>)
    requires |m.table| >= 1
  {
    |tokens| == |prompt| + k && prompt <= tokens && forall i: nat :: |prompt| <= i < |tokens| ==> GreedyAt(m, tokens, i)
  }

  lemma NothingAfter(m: Model, prompt: seq<nat>)
    requires |m.table| >= 1
    ensures GreedyAfter(m, prompt, 0, prompt)
  {
  }

  lemma {:induction false} RepeatKeeps<T(!new)>(f: T -> Outcome<T>, good: (nat, T) -> bool, x: T, count: nat)
    requires good(0, x) && forall k: nat, y :: Keeps(f, good, k, y)
    requires Repeat(f, x, count).Ok?
    ensures good(count, Repeat(f, x, count).value)
  {
    if count > 0 {
      RepeatKeeps(f, good, x, count - 1);
      assert Keeps(f, good, count - 1, Repeat(f, x, count - 1).value);
    }
  }

  predicate Keeps<T>(f: T -> Outcome<T>, good: (nat, T) -> bool, k: nat, y: T) {
    good(k, y) && f(y).Ok? ==> good(k + 1, f(y).value)
  }

  lemma GreedyOnceMore(m: Model, prompt: seq<nat>, n: nat, before: seq<nat>, out: seq<nat>)
    requires |m.table| >= 1 && Extend(m, before) == Ok(out) && GreedyAfter(m, prompt, n, before)
    ensures GreedyAfter(m, prompt, n + 1, out)
  {
    ExtendIsGreedy(m, before);
    forall k: nat | |prompt| <= k < |out| ensures GreedyAt(m, out, k) {
      if k < |before| {
        GreedyKept(m, before, out, k);
      }
    }
  }

  lemma GreedyKept(m: Model, before: seq<nat>, out: seq<nat>, k: nat)
    requires |m.table| >= 1 && k < |before| && before <= out && GreedyAt(m, before, k)
    ensures GreedyAt(m, out, k)
  {
    assert out[..k] == before[..k];
  }

  ghost predicate GreedyAt(m: Model, tokens: seq<nat>, k: nat)
    requires |m.table| >= 1 && k < |tokens|
  {
    var hidden := Layers(m, 0, m.layers, Embed(m, Window(tokens[..k], m.maxSeq)));
    hidden != [] && m.head != [] && tokens[k] == Greedy(Logits(m, hidden))
  }

  lemma ExtendIsGreedy(m: Model, tokens: seq<nat>)
    requires |m.table| >= 1 && Extend(m, tokens).Ok?
    ensures var out := Extend(m, tokens).value;
            |out| == |tokens| + 1 && out[..|tokens|] == tokens && GreedyAt(m, out, |tokens|)
  {
  }

  lemma OneTokenMore(m: Model, prompt: seq<nat>, step: nat, tokens: seq<nat>)
    requires |m.table| >= 1 && Runnable(m) && LocalTokens(m, prompt, step) == Ok(tokens)
    ensures LocalTokens(m, prompt, step + 1) ==
              match NextLocal(m, Layers(m, 0, m.layers, Embed(m, Window(tokens, m.maxSeq))))
              case Error => Error
              case Ok(token) => Ok(tokens + [token])
  {
  }

  /** `ask(step, stage, hidden)(p)` is what provider `p` answers for that stage of that token. */
  type Fleet = (nat, nat, Matrix) -> (nat -> Outcome<Matrix>)

  /** In the polls of one token an honest majority answers each stage, given what the stages before it
      should have passed on. */
  ghost predicate HonestStages(m: Model, plan: seq<Slice>, step: nat, start: Matrix, candidates: nat -> seq<nat>, ask: Fleet,
                               redundancy: int)
    requires forall i :: 0 <= i < |plan| ==> plan[i].start <= plan[i].end
  {
    forall i :: 0 <= i < |plan| ==> HonestStage(m, plan[i], RunPlan(m, plan[..i], start), candidates(i), ask, step, i, redundancy)
  }

  ghost predicate HonestStage(m: Model, slice: Slice, hidden: Matrix, candidates: seq<nat>, ask: Fleet, step: nat, i: nat,
                              redundancy: int)
    requires slice.start <= slice.end
  {
    HonestMajority(Answers(candidates, ask(step, i, hidden)), Layers(m, slice.start, slice.end, hidden), Quorum(redundancy))
  }

  /** The same in every poll that generating `count` tokens takes. */
  ghost predicate HonestFleet(m: Model, plan: seq<Slice>, prompt: seq<nat>, count: nat, candidates: nat -> seq<nat>, ask: Fleet,
                              redundancy: int)
    requires |m.table| >= 1 && forall i :: 0 <= i < |plan| ==> plan[i].start <= plan[i].end
  {
    Runnable(m) && forall step: nat :: step < count && LocalTokens(m, prompt, step).Ok? ==>
      HonestStages(m, plan, step, Embed(m, Window(LocalTokens(m, prompt, step).value, m.maxSeq)), candidates, ask, redundancy)
  }

  /** Each state was answered by somebody who was asked for it with the state before. */
  ghost predicate Travelled(states: seq<Matrix>, step: nat, candidates: nat -> seq<nat>, ask: Fleet) {
    forall i :: 0 <= i < |states| - 1 ==> SomebodyAnswers(candidates(i), ask(step, i, states[i]), states[i + 1])
  }

  ghost predicate SomebodyAnswers(candidates: seq<nat>, ask: nat -> Outcome<Matrix>, x: Matrix) {
    Same(Answers(candidates, ask), x) >= 1
  }

  ghost predicate NobodyAnswers(candidates: seq<nat>, ask: nat -> Outcome<Matrix>) {
    forall x :: Same(Answers(candidates, ask), x) == 0
  }

  /** One token: the hidden state travels through the stages. */
  method RunStages<F(==)>(m: Model, plan: seq<Slice>, step: nat, start: Matrix, candidates: nat -> seq<nat>, ask: Fleet,
                   redundancy: int, fp: Matrix -> F)
    returns (hidden: Outcome<Matrix>, ghost states: seq<Matrix>)
    requires InjectiveMark(fp) && forall i :: 0 <= i < |plan| ==> plan[i].start <= plan[i].end
    ensures HonestStages(m, plan, step, start, candidates, ask, redundancy) ==> hidden == Ok(RunPlan(m, plan, start))
    ensures 1 <= |states| <= |plan| + 1 && states[0] == start && Travelled(states, step, candidates, ask)
    ensures match hidden
            case Ok(x) => |states| == |plan| + 1 && x == states[|plan|]
            case Error => |states| <= |plan| && NobodyAnswers(candidates(|states| - 1), ask(step, |states| - 1, states[|states| - 1]))
  {
    var current := start;
    states := [start];
    for i := 0 to |plan|
      invariant HonestStages(m, plan, step, start, candidates, ask, redundancy) ==> current == RunPlan(m, plan[..i], start)
      invariant |states| == i + 1 && states[0] == start && states[i] == current && Travelled(states, step, candidates, ask)
    {
      var result, _, _ := RunStage(candidates(i), ask(step, i, current), redundancy, fp);
      assert plan[..i + 1][..i] == plan[..i];
      if HonestStages(m, plan, step, start, candidates, ask, redundancy) {
        assert HonestStage(m, plan[i], current, candidates(i), ask, step, i, redundancy);
      }
      if result == Error {
        return Error, states;
      }
      current := result.value;
      states := states + [current];
    }
    assert plan[..|plan|] == plan;
    return Ok(current), states;
  }

  /** Sharded greedy generation. With an honest majority in every stage it produces exactly the tokens,
      or the failure, of the local model. */
  method Generate<F(==)>(m: Model, plan: seq<Slice>, prompt: seq<nat>, count: nat, candidates: nat -> seq<nat>, ask: Fleet,
                  redundancy: int, fp: Matrix -> F)
    returns (generated: Outcome<seq<nat>>)
    requires |m.table| >= 1 && InjectiveMark(fp) && GapFree(plan, m.layers)
    ensures HonestFleet(m, plan, prompt, count, candidates, ask, redundancy) ==>
              match LocalTokens(m, prompt, count)
              case Ok(tokens) => generated.Ok? && tokens == prompt + generated.value
              case Error => generated == Error
    ensures generated.Ok? ==> |generated.value| == count
  {
    var tokens := prompt;
    ghost var honest := HonestFleet(m, plan, prompt, count, candidates, ask, redundancy);
    for step := 0 to count
      invariant prompt <= tokens && |tokens| == |prompt| + step
      invariant honest ==> LocalTokens(m, prompt, step) == Ok(tokens)
    {
      var start := Embed(m, Window(tokens, m.maxSeq));
      var hidden, _ := RunStages(m, plan, step, start, candidates, ask, redundancy, fp);
      if honest {
        HonestToken(m, plan, prompt, count, step, tokens, candidates, ask, redundancy);
      }
      if hidden == Error {
        return Error;
      }
      if hidden.value == [] || m.head == [] {
        if honest {
          RepeatFails(OneToken(m), prompt, step + 1, count);
        }
        return Error;
      }
      var token := NextToken(Logits(m, hidden.value));
      tokens := tokens + [token];
    }
    return Ok(tokens[|prompt|..]);
  }

  /** With honest polls the stages of one token give the whole model's hidden state, and the local model goes
      on from there. */
  lemma HonestToken(m: Model, plan: seq<Slice>, prompt: seq<nat>, count: nat, step: nat, tokens: seq<nat>,
                    candidates: nat -> seq<nat>, ask: Fleet, redundancy: int)
    requires |m.table| >= 1 && GapFree(plan, m.layers) && step < count && LocalTokens(m, prompt, step) == Ok(tokens)
    requires HonestFleet(m, plan, prompt, count, candidates, ask, redundancy)
    ensures var start := Embed(m, Window(tokens, m.maxSeq));
            && HonestStages(m, plan, step, start, candidates, ask, redundancy)
            && LocalTokens(m, prompt, step + 1) ==
                 match NextLocal(m, RunPlan(m, plan, start))
                 case Error => Error
                 case Ok(token) => Ok(tokens + [token])
  {
    PlanIsWholeModel(m, plan, m.layers, Embed(m, Window(tokens, m.maxSeq)));
    OneTokenMore(m, prompt, step, tokens);
  }
}
