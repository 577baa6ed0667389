/** The redundancy scheduler: chunks handed to distinct providers, results put to a vote that may
    widen, and a majority that can never change its mind. */
module Scheduling {
  import opened Wire

  const MAX_ATTEMPTS_PER_PROVIDER: nat := 2
  const MAX_EXTRA_ROUNDS: nat := 2

  /** A JSON value, by its canonical text. */
  datatype Json = Json(text: string)

  /** One entry of `results_by_provider`; the dictionary keeps insertion order. */
  datatype Vote = Vote(provider: NodeId, value: seq<Json>)

  datatype Chunk = Chunk(items: seq<Json>, needed: int, votes: seq<Vote>, inFlight: set<NodeId>,
                         attempts: map<NodeId, nat>, accepted: Option<seq<Json>>)

  type Fingerprint = seq<Json> -> nat

  function Fresh(items: seq<Json>, redundancy: int): Chunk {
    Chunk(items, redundancy, [], {}, map[], None)
  }

  function Majority(redundancy: int): int {
    redundancy / 2 + 1
  }

  function Attempts(c: Chunk, p: NodeId): nat {
    if p in c.attempts then c.attempts[p] else 0
  }

  predicate HasVoted(votes: seq<Vote>, p: NodeId) {
    exists i :: 0 <= i < |votes| && votes[i].provider == p
  }

  /** How many votes carry fingerprint `f`. */
  function Count(votes: seq<Vote>, fp: Fingerprint, f: nat): nat
  {
    if votes == [] then 0
    else Count(votes[..|votes| - 1], fp, f) + if fp(votes[|votes| - 1].value) == f then 1 else 0
  }

  /** The first vote, in insertion order, whose fingerprint has `q` votes or more. */
  function Winner(votes: seq<Vote>, fp: Fingerprint, q: int, from: nat): Option<nat>
    requires from <= |votes|
    decreases |votes| - from
  {
    if from == |votes| then None
    else if Count(votes, fp, fp(votes[from].value)) >= q then Some(from)
    else Winner(votes, fp, q, from + 1)
  }

  function Put(votes: seq<Vote>, p: NodeId, value: seq<Json>): (out: seq<Vote>)
    ensures !HasVoted(votes, p) ==> out == votes + [Vote(p, value)]
  {
    if votes == [] then [Vote(p, value)]
    else if votes[0].provider == p then [Vote(p, value)] + votes[1..]
    else
      assert HasVoted(votes[1..], p) ==> HasVoted(votes, p) by {
        if HasVoted(votes[1..], p) {
          var i :| 0 <= i < |votes[1..]| && votes[1..][i].provider == p;
          assert votes[i + 1].provider == p;
        }
      }
      [votes[0]] + Put(votes[1..], p, value)
  }

  // ---------------------------------------------------------------- the three steps

  predicate Eligible(c: Chunk, p: NodeId)
  {
    && c.accepted.None? && p !in c.inFlight && !HasVoted(c.votes, p)
    && Attempts(c, p) < MAX_ATTEMPTS_PER_PROVIDER
    && |c.votes| + |c.inFlight| < c.needed
  }

  function Acquired(c: Chunk, p: NodeId): Chunk {
    c.(inFlight := c.inFlight + {p}, attempts := c.attempts[p := Attempts(c, p) + 1])
  }

  function Completed(c: Chunk, redundancy: int, fp: Fingerprint, p: NodeId, value: seq<Json>): Chunk
  {
    var c' := c.(inFlight := c.inFlight - {p}, votes := Put(c.votes, p, value));
    match Winner(c'.votes, fp, Majority(redundancy), 0)
    case Some(k) => WinnerInRange(c'.votes, fp, Majority(redundancy), 0); c'.(accepted := Some(c'.votes[k].value))
    case None =>
      if |c'.votes| >= c.needed && c.needed < redundancy + MAX_EXTRA_ROUNDS then c'.(needed := c.needed + 1) else c'
  }

  function Failed(c: Chunk, p: NodeId): Chunk {
    c.(inFlight := c.inFlight - {p})
  }

  lemma {:induction false} WinnerInRange(votes: seq<Vote>, fp: Fingerprint, q: int, from: nat)
    requires from <= |votes|
    ensures match Winner(votes, fp, q, from)
            case Some(k) =>
              && from <= k < |votes| && Count(votes, fp, fp(votes[k].value)) >= q
              && forall j :: from <= j < k ==> Count(votes, fp, fp(votes[j].value)) < q
            case None => forall j :: from <= j < |votes| ==> Count(votes, fp, fp(votes[j].value)) < q
    decreases |votes| - from
  {
    if from < |votes| {
      WinnerInRange(votes, fp, q, from + 1);
    }
  }

  // ---------------------------------------------------------------- counting votes

  lemma {:induction false} TwoCamps(votes: seq<Vote>, fp: Fingerprint, f: nat, g: nat)
    requires f != g
    ensures Count(votes, fp, f) + Count(votes, fp, g) <= |votes|
  {
    if votes != [] {
      TwoCamps(votes[..|votes| - 1], fp, f, g);
    }
  }

  lemma CountAppend(votes: seq<Vote>, fp: Fingerprint, v: Vote, f: nat)
    ensures Count(votes + [v], fp, f) == Count(votes, fp, f) + if fp(v.value) == f then 1 else 0
  {
    assert (votes + [v])[..|votes|] == votes;
  }

  lemma {:induction false} CountedVoteExists(votes: seq<Vote>, fp: Fingerprint, f: nat) returns (k: nat)
    requires Count(votes, fp, f) > 0
    ensures k < |votes| && fp(votes[k].value) == f
  {
    if fp(votes[|votes| - 1].value) == f {
      k := |votes| - 1;
    } else {
      k := CountedVoteExists(votes[..|votes| - 1], fp, f);
    }
  }

  // ---------------------------------------------------------------- what every interleaving keeps

  /** The vote that a chunk has accepted: first of its camp, a majority, and out of reach for all
      others even if everything in flight went to one of them. */
  ghost predicate Decided(c: Chunk, fp: Fingerprint, q: int, k: nat)
  {
    && k < |c.votes| && c.accepted == Some(c.votes[k].value)
    && Count(c.votes, fp, fp(c.votes[k].value)) >= q
    && (forall j :: 0 <= j < k ==> fp(c.votes[j].value) != fp(c.votes[k].value))
    && (forall f :: f != fp(c.votes[k].value) ==> Count(c.votes, fp, f) + |c.inFlight| < q)
  }

  ghost predicate Sane(c: Chunk, redundancy: int, fp: Fingerprint)
  {
    && (forall i, j :: 0 <= i < j < |c.votes| ==> c.votes[i].provider != c.votes[j].provider)
    && (forall p :: p in c.inFlight ==> !HasVoted(c.votes, p))
    && redundancy <= c.needed <= redundancy + MAX_EXTRA_ROUNDS
    && |c.votes| + |c.inFlight| <= c.needed
    && (c.needed > redundancy ==> |c.votes| >= c.needed - 1)
    && (c.accepted.None? && c.needed < redundancy + MAX_EXTRA_ROUNDS ==> |c.votes| < c.needed)
    && (forall p :: p in c.attempts ==> c.attempts[p] <= MAX_ATTEMPTS_PER_PROVIDER)
    && (c.accepted.None? ==> forall f :: Count(c.votes, fp, f) < Majority(redundancy))
    && (c.accepted.Some? ==> exists k :: Decided(c, fp, Majority(redundancy), k))
  }

  lemma SaneFresh(items: seq<Json>, redundancy: int, fp: Fingerprint)
    requires redundancy >= 1
    ensures Sane(Fresh(items, redundancy), redundancy, fp)
  {
  }

  lemma SaneAcquired(c: Chunk, redundancy: int, fp: Fingerprint, p: NodeId)
    requires redundancy >= 1 && Sane(c, redundancy, fp) && Eligible(c, p)
    ensures Sane(Acquired(c, p), redundancy, fp)
  {
  }

  lemma SaneFailed(c: Chunk, redundancy: int, fp: Fingerprint, p: NodeId)
    requires redundancy >= 1 && Sane(c, redundancy, fp) && p in c.inFlight
    ensures Sane(Failed(c, p), redundancy, fp) && Failed(c, p).accepted == c.accepted
  {
    if c.accepted.Some? {
      var k: nat :| Decided(c, fp, Majority(redundancy), k);
      assert Decided(Failed(c, p), fp, Majority(redundancy), k);
    }
  }

  /** A result that arrives while the chunk is undecided either decides it for good or, when it was the
      last that was asked for, widens the vote by one until two more are asked for than at first. */
  lemma CompletedUndecided(c: Chunk, redundancy: int, fp: Fingerprint, p: NodeId, value: seq<Json>)
    requires redundancy >= 1 && Sane(c, redundancy, fp) && p in c.inFlight && c.accepted.None?
    ensures var c' := Completed(c, redundancy, fp, p, value);
            && (c'.accepted.None? ==> forall f :: Count(c'.votes, fp, f) < Majority(redundancy))
            && (c'.accepted.Some? ==> c'.needed == c.needed && exists k :: Decided(c', fp, Majority(redundancy), k))
            && (c'.accepted.None? ==>
                  c'.needed == if |c.votes| + 1 == c.needed && c.needed < redundancy + 2 then c.needed + 1 else c.needed)
  {
    var q := Majority(redundancy);
    var v := Vote(p, value);
    var c' := Completed(c, redundancy, fp, p, value);
    assert c'.votes == c.votes + [v];
    WinnerInRange(c'.votes, fp, q, 0);
    if c'.accepted.None? {
      forall f ensures Count(c'.votes, fp, f) < q {
        if Count(c'.votes, fp, f) >= q {
          var k := CountedVoteExists(c'.votes, fp, f);
        }
      }
    } else {
      var k := Winner(c'.votes, fp, q, 0).value;
      forall f | f != fp(c'.votes[k].value) ensures Count(c'.votes, fp, f) + |c'.inFlight| < q {
        CountAppend(c.votes, fp, v, f);
        CountAppend(c.votes, fp, v, fp(c'.votes[k].value));
        TwoCamps(c'.votes, fp, f, fp(c'.votes[k].value));
      }
      assert Decided(c', fp, q, k);
    }
  }

  lemma WinnerIs(votes: seq<Vote>, fp: Fingerprint, q: int, k: nat)
    requires k < |votes| && Count(votes, fp, fp(votes[k].value)) >= q
    requires forall j :: 0 <= j < k ==> Count(votes, fp, fp(votes[j].value)) < q
    ensures Winner(votes, fp, q, 0) == Some(k)
  {
    WinnerInRange(votes, fp, q, 0);
  }

  /** A late result never overturns a decision. */
  lemma CompletedDecided(c: Chunk, redundancy: int, fp: Fingerprint, p: NodeId, value: seq<Json>)
    requires redundancy >= 1 && Sane(c, redundancy, fp) && p in c.inFlight && c.accepted.Some?
    ensures var c' := Completed(c, redundancy, fp, p, value);
            c'.accepted == c.accepted && exists k :: Decided(c', fp, Majority(redundancy), k)
  {
    var q := Majority(redundancy);
    var v := Vote(p, value);
    var c' := Completed(c, redundancy, fp, p, value);
    assert c'.votes == c.votes + [v];
    var k: nat :| Decided(c, fp, q, k);
    var f := fp(c.votes[k].value);
    forall g | g != f ensures Count(c'.votes, fp, g) + |c'.inFlight| < q {
      CountAppend(c.votes, fp, v, g);
    }
    CountAppend(c.votes, fp, v, f);
    assert forall j :: 0 <= j <= k ==> c'.votes[j] == c.votes[j];
    WinnerIs(c'.votes, fp, q, k);
    assert Decided(c', fp, q, k);
  }

  lemma SaneCompleted(c: Chunk, redundancy: int, fp: Fingerprint, p: NodeId, value: seq<Json>)
    requires redundancy >= 1 && Sane(c, redundancy, fp) && p in c.inFlight
    ensures Sane(Completed(c, redundancy, fp, p, value), redundancy, fp)
    ensures c.accepted.Some? ==> Completed(c, redundancy, fp, p, value).accepted == c.accepted
    ensures Completed(c, redundancy, fp, p, value).votes == c.votes + [Vote(p, value)]
  {
    var c' := Completed(c, redundancy, fp, p, value);
    assert c'.votes == c.votes + [Vote(p, value)];
    if c.accepted.Some? {
      CompletedDecided(c, redundancy, fp, p, value);
    } else {
      CompletedUndecided(c, redundancy, fp, p, value);
    }
    VotedOnce(c.votes, Vote(p, value));
    forall x | x in c'.inFlight ensures !HasVoted(c'.votes, x) {
      StillUnvoted(c.votes, Vote(p, value), x);
    }
    assert |c'.inFlight| == |c.inFlight| - 1;
  }

  lemma VotedOnce(votes: seq<Vote>, v: Vote)
    requires !HasVoted(votes, v.provider)
    requires forall i, j :: 0 <= i < j < |votes| ==> votes[i].provider != votes[j].provider
    ensures var all := votes + [v]; forall i, j :: 0 <= i < j < |all| ==> all[i].provider != all[j].provider
  {
  }

  lemma StillUnvoted(votes: seq<Vote>, v: Vote, x: NodeId)
    requires !HasVoted(votes, x) && x != v.provider
    ensures !HasVoted(votes + [v], x)
  {
  }

  /** An undecided chunk asks for as many executions as at first, or for one more than it has results,
      but never for more than two extra ones. */
  lemma NeededExactly(c: Chunk, redundancy: int, fp: Fingerprint)
    requires redundancy >= 1 && Sane(c, redundancy, fp) && c.accepted.None?
    ensures c.needed == if |c.votes| < redundancy then redundancy else if |c.votes| < redundancy + 2 then |c.votes| + 1 else redundancy + 2
  {
  }

  /** So no undecided chunk is stuck while executions are left: with nothing in flight it is open to every
      provider that has not voted and has attempts left. */
  lemma UndecidedIsOpen(c: Chunk, redundancy: int, fp: Fingerprint, p: NodeId)
    requires redundancy >= 1 && Sane(c, redundancy, fp) && c.accepted.None? && c.inFlight == {}
    requires |c.votes| < redundancy + 2 && Attempts(c, p) < 2 && forall i :: 0 <= i < |c.votes| ==> c.votes[i].provider != p
    ensures Eligible(c, p)
  {
    NeededExactly(c, redundancy, fp);
  }

  /** At most one fingerprint of a chunk ever has a majority. */
  lemma OneMajority(c: Chunk, redundancy: int, fp: Fingerprint, f: nat, g: nat)
    requires redundancy >= 1 && Sane(c, redundancy, fp)
    requires Count(c.votes, fp, f) >= Majority(redundancy) && Count(c.votes, fp, g) >= Majority(redundancy)
    ensures f == g && c.accepted.Some? && fp(c.accepted.value) == f
  {
    var k: nat :| Decided(c, fp, Majority(redundancy), k);
  }
}
