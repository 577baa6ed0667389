/** Who witnesses a transfer: the best-earning five of the candidates near the sender's witness key.
    How far any two committees overlap, exactly. */
module Committee {
  import opened Basics

  const WITNESS_COUNT: nat := 5
  const LOOKUP_SIZE: nat := 8

  /** Stable insertion by falling earnings. */
  function InsertByEarned(c: nat, ranked: seq<nat>, earned: nat -> int): (out: seq<nat>)
    ensures |out| == |ranked| + 1 && multiset(out) == multiset(ranked) + multiset{c}
    ensures forall x :: x in out <==> x == c || x in ranked
  {
    if ranked == [] || earned(ranked[0]) <= earned(c) then [c] + ranked
    else
      assert ranked == [ranked[0]] + ranked[1..];
      [ranked[0]] + InsertByEarned(c, ranked[1..], earned)
  }

  function RankAll(candidates: seq<nat>, earned: nat -> int): (out: seq<nat>)
    ensures |out| == |candidates| && multiset(out) == multiset(candidates)
    ensures forall x :: x in out <==> x in candidates
  {
    if candidates == [] then []
    else
      assert candidates == [candidates[0]] + candidates[1..];
      InsertByEarned(candidates[0], RankAll(candidates[1..], earned), earned)
  }

  function RankWitnesses(candidates: seq<nat>, earned: nat -> int): seq<nat>
  {
    var ranked := RankAll(candidates, earned);
    if |ranked| <= WITNESS_COUNT then ranked else ranked[..WITNESS_COUNT]
  }

  ghost predicate Falling(s: seq<nat>, earned: nat -> int) {
    forall i, j :: 0 <= i < j < |s| ==> earned(s[i]) >= earned(s[j])
  }

  ghost predicate Distinct(s: seq<nat>) {
    forall i, j :: 0 <= i < j < |s| ==> s[i] != s[j]
  }

  function Members(s: seq<nat>): set<nat> {
    set x | x in s
  }

  lemma {:induction false} InsertFalling(c: nat, ranked: seq<nat>, earned: nat -> int)
    requires Falling(ranked, earned)
    ensures Falling(InsertByEarned(c, ranked, earned), earned)
  {
    if ranked != [] && earned(ranked[0]) > earned(c) {
      InsertFalling(c, ranked[1..], earned);
      var rest := InsertByEarned(c, ranked[1..], earned);
      forall j | 0 <= j < |rest| ensures earned(ranked[0]) >= earned(rest[j]) {
        assert rest[j] in rest;
        if rest[j] != c {
          var k :| 0 <= k < |ranked[1..]| && ranked[1..][k] == rest[j];
          assert rest[j] == ranked[k + 1];
        }
      }
    }
  }

  lemma {:induction false} RankedFalling(candidates: seq<nat>, earned: nat -> int)
    ensures Falling(RankAll(candidates, earned), earned)
  {
    if candidates != [] {
      RankedFalling(candidates[1..], earned);
      InsertFalling(candidates[0], RankAll(candidates[1..], earned), earned);
    }
  }

  lemma {:induction false} DistinctSize(s: seq<nat>)
    requires Distinct(s)
    ensures |Members(s)| == |s|
  {
    if s != [] {
      DistinctSize(s[1..]);
      assert Members(s) == {s[0]} + Members(s[1..]) by {
        assert forall x :: x in s <==> x == s[0] || x in s[1..];
      }
    }
  }

  lemma DistinctByCount(s: seq<nat>, t: seq<nat>)
    requires Distinct(s) && multiset(s) == multiset(t)
    ensures Distinct(t)
  {
    forall x | x in multiset(s) ensures multiset(s)[x] == 1 {
      CountOne(s, x);
    }
    forall i, j | 0 <= i < j < |t| ensures t[i] != t[j] {
      assert t[j] in multiset(t);
      RepeatedCount(t, i, j);
    }
  }

  lemma RepeatedCount(t: seq<nat>, i: nat, j: nat)
    requires i < j < |t|
    ensures t[i] == t[j] ==> multiset(t)[t[j]] >= 2
  {
    assert t == t[..j] + [t[j]] + t[j + 1..];
    assert t[i] in t[..j];
  }

  lemma {:induction false} CountOne(s: seq<nat>, x: nat)
    requires Distinct(s) && x in s
    ensures multiset(s)[x] == 1
  {
    assert s == [s[0]] + s[1..];
    if s[0] == x {
      assert x !in s[1..];
    } else {
      CountOne(s[1..], x);
    }
  }

  /** In the order found, `x` comes before `y`. */
  ghost predicate Earlier(order: seq<nat>, x: nat, y: nat) {
    forall a, b :: 0 <= a < |order| && 0 <= b < |order| && order[a] == x && order[b] == y ==> a < b
  }

  /** Of candidates that have earned the same the one found earlier comes first. */
  ghost predicate Stable(s: seq<nat>, order: seq<nat>, earned: nat -> int) {
    forall i, j :: 0 <= i < j < |s| && earned(s[i]) == earned(s[j]) ==> Earlier(order, s[i], s[j])
  }

  lemma {:induction false} RankedStable(candidates: seq<nat>, earned: nat -> int)
    requires Distinct(candidates)
    ensures Stable(RankAll(candidates, earned), candidates, earned)
  {
    if candidates != [] {
      var c, rest := candidates[0], candidates[1..];
      RankedStable(rest, earned);
      RankedFalling(rest, earned);
      assert c !in rest;
      InsertStable(c, rest, RankAll(rest, earned), earned);
      assert candidates == [c] + rest;
    }
  }

  /** A candidate goes before all that have earned no more. */
  lemma {:induction false} InsertPlace(c: nat, ranked: seq<nat>, earned: nat -> int) returns (k: nat)
    requires Falling(ranked, earned)
    ensures k <= |ranked| && InsertByEarned(c, ranked, earned) == ranked[..k] + [c] + ranked[k..]
    ensures (forall i :: 0 <= i < k ==> earned(ranked[i]) > earned(c)) && forall i :: k <= i < |ranked| ==> earned(ranked[i]) <= earned(c)
  {
    if ranked == [] || earned(ranked[0]) <= earned(c) {
      k := 0;
    } else {
      var rest := InsertPlace(c, ranked[1..], earned);
      k := rest + 1;
      SplitAtPlace(ranked, k);
      forall i | 0 <= i < k ensures earned(ranked[i]) > earned(c) {
        assert i > 0 ==> ranked[i] == ranked[1..][i - 1];
      }
      forall i | k <= i < |ranked| ensures earned(ranked[i]) <= earned(c) {
        assert ranked[i] == ranked[1..][i - 1];
      }
    }
  }

  lemma SplitAtPlace(s: seq<nat>, k: nat)
    requires 0 < k <= |s|
    ensures s[..k] == [s[0]] + s[1..][..k - 1] && s[k..] == s[1..][k - 1..]
  {
  }

  lemma InsertStable(c: nat, rest: seq<nat>, ranked: seq<nat>, earned: nat -> int)
    requires Falling(ranked, earned) && Stable(ranked, rest, earned) && c !in rest
    requires forall x :: x in ranked <==> x in rest
    ensures Stable(InsertByEarned(c, ranked, earned), [c] + rest, earned)
  {
    var k := InsertPlace(c, ranked, earned);
    var s := ranked[..k] + [c] + ranked[k..];
    forall i, j | 0 <= i < j < |s| && earned(s[i]) == earned(s[j]) ensures Earlier([c] + rest, s[i], s[j]) {
      if i == k {
        FirstIsEarlier(c, rest, s[j]);
      } else if j != k {
        StillEarlier(c, rest, s[i], s[j]);
      }
    }
  }

  lemma FirstIsEarlier(c: nat, rest: seq<nat>, y: nat)
    requires c !in rest && y != c
    ensures Earlier([c] + rest, c, y)
  {
    var order := [c] + rest;
    assert forall a :: 0 < a < |order| ==> order[a] == rest[a - 1] && order[a] in rest;
  }

  lemma StillEarlier(c: nat, rest: seq<nat>, x: nat, y: nat)
    requires Earlier(rest, x, y) && x != c && y != c
    ensures Earlier([c] + rest, x, y)
  {
    forall a, b | 0 <= a < |[c] + rest| && 0 <= b < |[c] + rest| && ([c] + rest)[a] == x && ([c] + rest)[b] == y ensures a < b {
      assert rest[a - 1] == x && rest[b - 1] == y;
    }
  }

  /** The committee is as large as it can be, and nobody left out has earned more than a member. */
  lemma CommitteeIsBest(candidates: seq<nat>, earned: nat -> int)
    requires Distinct(candidates)
    ensures var c := RankWitnesses(candidates, earned);
            && Members(c) <= Members(candidates) && Distinct(c)
            && |Members(c)| == |c| == Min(|candidates|, WITNESS_COUNT)
            && forall x, y :: x in c && y in candidates && y !in c ==> earned(x) >= earned(y)
  {
    var ranked, c := RankAll(candidates, earned), RankWitnesses(candidates, earned);
    DistinctByCount(candidates, ranked);
    RankedFalling(candidates, earned);
    DistinctSize(c);
    forall x | x in c ensures x in candidates {
      assert x in ranked;
    }
    forall x, y | x in c && y in candidates && y !in c ensures earned(x) >= earned(y) {
      var i :| 0 <= i < |c| && c[i] == x;
      assert y in ranked;
      var j :| 0 <= j < |ranked| && ranked[j] == y;
      assert ranked[i] == x && i < j;
    }
  }

  /** Between equals the committee takes the candidates found first. */
  lemma TiesGoToTheEarlier(candidates: seq<nat>, earned: nat -> int, x: nat, y: nat)
    requires Distinct(candidates) && x in RankWitnesses(candidates, earned)
    requires y in candidates && y !in RankWitnesses(candidates, earned) && earned(x) == earned(y)
    ensures Earlier(candidates, x, y)
  {
    var ranked, c := RankAll(candidates, earned), RankWitnesses(candidates, earned);
    RankedStable(candidates, earned);
    var i :| 0 <= i < |c| && c[i] == x;
    assert y in ranked;
    var j :| 0 <= j < |ranked| && ranked[j] == y;
    assert ranked[i] == x && i < j;
  }

  /** Two subsets of one set overlap by at least what their sizes exceed it. */
  lemma OverlapAtLeast(a: set<nat>, b: set<nat>, whole: set<nat>)
    requires a <= whole && b <= whole
    ensures |a * b| >= |a| + |b| - |whole|
  {
    assert a + b == a + (b - a) && b == (a * b) + (b - a);
    SubsetSize(a + b, whole);
  }

  function Candidates(found: seq<nat>, sender: nat, self: nat): (out: seq<nat>)
    ensures forall x :: x in out <==> x in found && x != sender && x != self
  {
    if found == [] then []
    else
      assert forall x :: x in found <==> x == found[0] || x in found[1..];
      var rest := Candidates(found[1..], sender, self);
      if found[0] == sender || found[0] == self then rest else [found[0]] + rest
  }

  lemma {:induction false} CandidatesDistinct(found: seq<nat>, sender: nat, self: nat)
    requires Distinct(found)
    ensures Distinct(Candidates(found, sender, self))
  {
    if found != [] {
      CandidatesDistinct(found[1..], sender, self);
      assert found[0] !in found[1..];
    }
  }

  // ---------------------------------------------------------------- two committees

  /** Whatever earnings two providers believe, their committees overlap by at least this much. */
  function LeastOverlap(ca: seq<nat>, cb: seq<nat>): int {
    Min(|ca|, WITNESS_COUNT) + Min(|cb|, WITNESS_COUNT) - |Members(ca) + Members(cb)|
  }

  lemma CommitteesOverlap(ca: seq<nat>, cb: seq<nat>, earnedA: nat -> int, earnedB: nat -> int)
    requires Distinct(ca) && Distinct(cb)
    ensures |Members(RankWitnesses(ca, earnedA)) * Members(RankWitnesses(cb, earnedB))| >= LeastOverlap(ca, cb)
  {
    CommitteeIsBest(ca, earnedA);
    CommitteeIsBest(cb, earnedB);
    OverlapAtLeast(Members(RankWitnesses(ca, earnedA)), Members(RankWitnesses(cb, earnedB)), Members(ca) + Members(cb));
  }

  /** No better bound holds: some two opinions of earnings leave exactly that overlap, or none. */
  lemma SmallestOverlap(ca: seq<nat>, cb: seq<nat>) returns (earnedA: nat -> int, earnedB: nat -> int)
    requires Distinct(ca) && Distinct(cb)
    ensures |Members(RankWitnesses(ca, earnedA)) * Members(RankWitnesses(cb, earnedB))| == Max(0, LeastOverlap(ca, cb))
  {
    DistinctSize(ca);
    DistinctSize(cb);
    var a := FirstFrom(Members(ca) - Members(cb), Members(ca), Min(|ca|, WITNESS_COUNT));
    var b := FirstFrom(Members(cb) - a, Members(cb), Min(|cb|, WITNESS_COUNT));
    earnedA, earnedB := Favour(a), Favour(b);
    FavouritesWin(ca, a);
    FavouritesWin(cb, b);
    LeftOver(Members(ca), Members(cb), a, b);
  }

  /** A selection of the given size that takes from `first` as long as it can. */
  ghost predicate TakenFirst(first: set<nat>, all: set<nat>, size: nat, out: set<nat>) {
    out <= all && |out| == size && (first <= out || out <= first)
  }

  lemma {:induction false} FirstFrom(first: set<nat>, all: set<nat>, size: nat) returns (out: set<nat>)
    requires first <= all && size <= |all|
    ensures TakenFirst(first, all, size, out)
    decreases size
  {
    if size == 0 {
      out := {};
    } else {
      var less := FirstFrom(first, all, size - 1);
      if first <= less {
        SomeoneElse(less, all);
        var x :| x in all && x !in less;
        out := less + {x};
      } else {
        var x :| x in first && x !in less;
        out := less + {x};
      }
    }
  }

  lemma SomeoneElse(s: set<nat>, all: set<nat>)
    requires s <= all && |s| < |all|
    ensures exists x :: x in all && x !in s
  {
    assert |all - s| == |all| - |s|;
    if x :| x in all - s {
    }
  }

  lemma LeftOver(ca: set<nat>, cb: set<nat>, a: set<nat>, b: set<nat>)
    requires TakenFirst(ca - cb, ca, |a|, a) && TakenFirst(cb - a, cb, |b|, b)
    ensures |a * b| == Max(0, |a| + |b| - |ca + cb|)
  {
    OverlapAtLeast(a, b, ca + cb);
    if ca - cb <= a && cb - a <= b {
      assert a + b == ca + cb;
      UnionSize(a, b);
    } else {
      assert a * b == {};
    }
  }

  function Favour(chosen: set<nat>): nat -> int {
    (x: nat) => if x in chosen then 1 else 0
  }

  lemma FavouritesWin(candidates: seq<nat>, chosen: set<nat>)
    requires Distinct(candidates) && chosen <= Members(candidates) && |chosen| == Min(|candidates|, WITNESS_COUNT)
    ensures Members(RankWitnesses(candidates, Favour(chosen))) == chosen
  {
    var c := Members(RankWitnesses(candidates, Favour(chosen)));
    CommitteeIsBest(candidates, Favour(chosen));
    if x :| x in chosen && x !in c {
      assert forall y :: y in c ==> Favour(chosen)(y) >= Favour(chosen)(x);
      assert c <= chosen - {x};
      SubsetSize(c, chosen - {x});
    }
    SameSize(chosen, c);
  }

  lemma SameSize(a: set<nat>, b: set<nat>)
    requires a <= b && |a| == |b|
    ensures a == b
  {
    assert |b - a| == |b| - |a|;
  }

  /** The committees of two providers, drawn from what each one's own lookup found. If each misses at
      most one of the other's candidates they share a witness, unless nobody is a candidate of both; and
      two or all of those, unless each has a candidate of its own beside seven common ones. */
  lemma ProvidersShareWitnesses(foundP: seq<nat>, foundQ: seq<nat>, sender: nat, p: nat, q: nat, earnedP: nat -> int, earnedQ: nat -> int)
    requires Distinct(foundP) && |foundP| <= LOOKUP_SIZE && Distinct(foundQ) && |foundQ| <= LOOKUP_SIZE
    requires var a, b := Members(Candidates(foundP, sender, p)), Members(Candidates(foundQ, sender, q));
             |a - b| <= 1 && |b - a| <= 1
    ensures var ca, cb := Candidates(foundP, sender, p), Candidates(foundQ, sender, q);
            var shared, common := Shared(ca, cb, earnedP, earnedQ), |Members(ca) * Members(cb)|;
            && shared >= Min(1, common)
            && (Members(ca) <= Members(cb) || Members(cb) <= Members(ca) || common <= 6 ==> shared >= Min(2, common))
  {
    var ca, cb := Candidates(foundP, sender, p), Candidates(foundQ, sender, q);
    CandidatesDistinct(foundP, sender, p);
    CandidatesDistinct(foundQ, sender, q);
    CandidatesFew(foundP, sender, p);
    CandidatesFew(foundQ, sender, q);
    DistinctSize(ca);
    DistinctSize(cb);
    CommitteesOverlap(ca, cb, earnedP, earnedQ);
    UnionSize(Members(ca), Members(cb));
    EnoughShared(|Members(ca) * Members(cb)|, |Members(ca) - Members(cb)|, |Members(cb) - Members(ca)|);
  }

  lemma EnoughShared(common: nat, onlyA: nat, onlyB: nat)
    requires onlyA <= 1 && onlyB <= 1 && common + onlyA <= LOOKUP_SIZE && common + onlyB <= LOOKUP_SIZE
    ensures var least := Min(common + onlyA, WITNESS_COUNT) + Min(common + onlyB, WITNESS_COUNT) - (common + onlyA + onlyB);
            && least >= Min(1, common) && (onlyA == 0 || onlyB == 0 || common <= 6 ==> least >= Min(2, common))
  {
  }

  /** How many witnesses two committees have in common. */
  function Shared(ca: seq<nat>, cb: seq<nat>, earnedA: nat -> int, earnedB: nat -> int): nat {
    |Members(RankWitnesses(ca, earnedA)) * Members(RankWitnesses(cb, earnedB))|
  }

  lemma UnionSize(a: set<nat>, b: set<nat>)
    ensures |a| == |a * b| + |a - b| && |b| == |a * b| + |b - a| && |a + b| == |a * b| + |a - b| + |b - a|
    ensures a <= b ==> |a - b| == 0
    ensures b <= a ==> |b - a| == 0
  {
    assert a == (a * b) + (a - b) && b == (a * b) + (b - a) && a + b == a + (b - a);
    assert a <= b ==> a - b == {};
    assert b <= a ==> b - a == {};
  }

  lemma {:induction false} CandidatesFew(found: seq<nat>, sender: nat, self: nat)
    ensures |Candidates(found, sender, self)| <= |found|
  {
    if found != [] {
      CandidatesFew(found[1..], sender, self);
    }
  }

  /** One shared witness is all there is for nine nodes: each provider is among the closest, so the other
      finds it beside the seven common ones. */
  lemma OneShared(ns: seq<nat>, sender: nat, p: nat, q: nat) returns (earnedP: nat -> int, earnedQ: nat -> int)
    requires |ns| == 7 && Distinct([sender, p, q] + ns)
    ensures var ca, cb := Candidates([q] + ns, sender, p), Candidates([p] + ns, sender, q);
            ca == [q] + ns && cb == [p] + ns && Shared(ca, cb, earnedP, earnedQ) == 1
  {
    var ca, cb := [q] + ns, [p] + ns;
    Strangers(sender, p, q, ns);
    AllCandidates(ca, sender, p);
    AllCandidates(cb, sender, q);
    earnedP, earnedQ := SmallestOverlap(ca, cb);
    DistinctSize(ca);
    assert Members(ca) + Members(cb) == Members(ca) + {p} && p !in Members(ca);
  }

  lemma Strangers(sender: nat, p: nat, q: nat, ns: seq<nat>)
    requires Distinct([sender, p, q] + ns)
    ensures p != q && sender !in [q] + ns && sender !in [p] + ns && p !in [q] + ns && q !in [p] + ns
    ensures Distinct([q] + ns) && Distinct([p] + ns)
  {
    var all := [sender, p, q] + ns;
    assert all[0] == sender && all[1] == p && all[2] == q && forall i :: 0 <= i < |ns| ==> all[i + 3] == ns[i];
  }

  lemma {:induction false} AllCandidates(found: seq<nat>, sender: nat, self: nat)
    requires sender !in found && self !in found
    ensures Candidates(found, sender, self) == found
  {
    if found != [] {
      AllCandidates(found[1..], sender, self);
    }
  }

  /** In a swarm of three two providers only know each other, and share nobody. */
  lemma TwoProvidersAlone(sender: nat, p: nat, q: nat, earnedP: nat -> int, earnedQ: nat -> int)
    requires p != q && p != sender && q != sender
    ensures Shared(Candidates([q], sender, p), Candidates([p], sender, q), earnedP, earnedQ) == 0
  {
    AllCandidates([q], sender, p);
    AllCandidates([p], sender, q);
    CommitteeIsBest([q], earnedP);
    CommitteeIsBest([p], earnedQ);
    assert Members(RankWitnesses([q], earnedP)) * Members(RankWitnesses([p], earnedQ)) == {};
  }
}
