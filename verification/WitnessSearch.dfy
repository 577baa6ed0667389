/** How a provider finds the witnesses of a sender: it looks up the sender's witness key and ranks what it
    finds. Every provider looks from its own place, so two providers do not find the same nodes. */
module WitnessSearch {
  import opened Basics
  import opened Xor
  import opened RoutingTables
  import opened Lookup
  import opened Committee

  function IdList(cs: seq<Contact>): seq<nat> {
    seq(|cs|, i requires 0 <= i < |cs| => cs[i].id)
  }

  /** What a lookup promises its querier: all of the K closest live nodes but itself, at most K nodes, and
      nobody else unless the querier is one of the K. */
  ghost predicate Promised(live: set<nat>, target: nat, self: nat, found: seq<nat>)
  {
    && Distinct(found) && |found| <= K && Members(found) <= live - {self}
    && (forall x :: AmongClosest(live, target, x) && x != self ==> x in found)
    && (!AmongClosest(live, target, self) ==> forall x :: x in found ==> AmongClosest(live, target, x))
  }

  /** What the lookup returned, and the nodes it heard of. */
  ghost predicate LookedUp(live: set<nat>, target: nat, self: nat, own: seq<Bucket>, tables: (nat, nat) -> seq<Bucket>,
                           found: seq<nat>, known: set<nat>)
  {
    && Promised(live, target, self, found) && known <= live && LeastClosed(self, own, tables, target, known)
    && forall x :: x in found <==> Selected(known, self, target, x)
  }

  /** The committee a provider asks about a sender's transfer. */
  method DrawCommittee(self: nat, own: seq<Bucket>, sender: nat, key: nat, tables: (nat, nat) -> seq<Bucket>,
                       earned: nat -> int, ghost live: set<nat>)
    returns (committee: seq<nat>, found: seq<nat>, ghost known: set<nat>)
    requires self in live && Covers(live, self, own) && Healthy(live, tables)
    ensures LookedUp(live, key, self, own, tables, found, known)
    ensures committee == RankWitnesses(Candidates(found, sender, self), earned)
    ensures Distinct(committee) && sender !in committee && self !in committee && |committee| <= WITNESS_COUNT
    ensures forall x, y :: x in committee && y in found && y !in [sender, self] && y !in committee ==> earned(x) >= earned(y)
  {
    var contacts;
    contacts, known := FindClosest(self, own, key, tables, live);
    found := IdList(contacts);
    IdsInList(contacts, key);
    var candidates := Candidates(found, sender, self);
    CandidatesDistinct(found, sender, self);
    CommitteeIsBest(candidates, earned);
    committee := RankWitnesses(candidates, earned);
    assert forall x :: x in committee ==> x in Members(committee) && x in candidates;
  }

  lemma IdsInList(cs: seq<Contact>, target: nat)
    requires Nearest(cs, target)
    ensures Distinct(IdList(cs)) && forall x :: x in IdList(cs) <==> x in Ids(cs)
  {
    NearestDistinct(cs, target);
    forall x | x in Ids(cs) ensures x in IdList(cs) {
      var c :| c in cs && c.id == x;
      var i :| 0 <= i < |cs| && cs[i] == c;
      assert IdList(cs)[i] == x;
    }
  }

  // ---------------------------------------------------------------- the K closest

  ghost function Top(live: set<nat>, target: nat): set<nat> {
    set x | x in live && AmongClosest(live, target, x)
  }

  lemma {:induction false} Farthest(s: set<nat>, target: nat) returns (m: nat)
    requires s != {}
    ensures m in s && forall x :: x in s && x != m ==> Distance(x, target) < Distance(m, target)
    decreases |s|
  {
    var y :| y in s;
    if s == {y} {
      m := y;
    } else {
      m := Farthest(s - {y}, target);
      if Distance(y, target) == Distance(m, target) {
        DistanceInjective(y, m, target);
      }
      if Distance(m, target) < Distance(y, target) {
        m := y;
      }
    }
  }

  /** There are K closest nodes, or fewer live ones. */
  lemma TopSize(live: set<nat>, target: nat)
    ensures |Top(live, target)| <= K && (|Top(live, target)| < K ==> Top(live, target) == live)
  {
    var top := Top(live, target);
    if top != {} {
      var m := Farthest(top, target);
      SubsetSize(top - {m}, Closer(live, target, m));
    }
    if x :| x in live && x !in top {
      var front := KCloseBefore(live, target, x);
      assert front <= top;
      SubsetSize(front, top);
    }
  }

  /** The only freedom a lookup has: one further node, in the place of a querier that is itself close. */
  ghost predicate NearTop(live: set<nat>, top: set<nat>, self: nat, all: set<nat>)
  {
    && self in live && all <= live - {self} && top - {self} <= all && |all - top| <= 1
    && (self !in top || |live| <= K ==> all == top - {self})
  }

  lemma AtMostOneFurther(live: set<nat>, target: nat, self: nat, found: seq<nat>)
    requires self in live && Promised(live, target, self, found)
    ensures NearTop(live, Top(live, target), self, Members(found))
  {
    var top, all := Top(live, target), Members(found);
    TopSize(live, target);
    DistinctSize(found);
    assert all == (top - {self}) + (all - top);
    assert self in top ==> |top - {self}| == |top| - 1;
    if |live| <= K {
      WholeSwarm(live, target);
    }
  }

  lemma WholeSwarm(live: set<nat>, target: nat)
    requires |live| <= K
    ensures Top(live, target) == live
  {
    forall x | x in live ensures AmongClosest(live, target, x) {
      assert Closer(live, target, x) <= live - {x};
      SubsetSize(Closer(live, target, x), live - {x});
    }
  }

  // ---------------------------------------------------------------- two providers

  ghost predicate ShareEnough(foundP: seq<nat>, foundQ: seq<nat>, sender: nat, p: nat, q: nat,
                              earnedP: nat -> int, earnedQ: nat -> int, enough: nat)
  {
    var ca, cb := Candidates(foundP, sender, p), Candidates(foundQ, sender, q);
    Shared(ca, cb, earnedP, earnedQ) >= Min(enough, |Members(ca) * Members(cb)|)
  }

  /** Whatever the tables did in between: if not both providers are among the closest nodes, they share a
      witness, and two of them if neither is. In a swarm of up to K nodes they always share two. Fewer only
      if fewer nodes are candidates of both. */
  lemma LookupsShareWitnesses(live: set<nat>, target: nat, sender: nat, p: nat, q: nat, foundP: seq<nat>, foundQ: seq<nat>,
                              earnedP: nat -> int, earnedQ: nat -> int)
    requires p in live && q in live && p != q && Promised(live, target, p, foundP) && Promised(live, target, q, foundQ)
    ensures !(AmongClosest(live, target, p) && AmongClosest(live, target, q)) ==>
              ShareEnough(foundP, foundQ, sender, p, q, earnedP, earnedQ, 1)
    ensures (!AmongClosest(live, target, p) && !AmongClosest(live, target, q)) || |live| <= K ==>
              ShareEnough(foundP, foundQ, sender, p, q, earnedP, earnedQ, 2)
  {
    CandidatesDiffer(live, target, sender, p, q, foundP, foundQ);
    if !(AmongClosest(live, target, p) && AmongClosest(live, target, q)) || |live| <= K {
      ProvidersShareWitnesses(foundP, foundQ, sender, p, q, earnedP, earnedQ);
    }
  }

  lemma CandidatesDiffer(live: set<nat>, target: nat, sender: nat, p: nat, q: nat, foundP: seq<nat>, foundQ: seq<nat>)
    requires p in live && q in live && p != q && Promised(live, target, p, foundP) && Promised(live, target, q, foundQ)
    ensures Differ(live, Top(live, target), p, q, Members(Candidates(foundP, sender, p)), Members(Candidates(foundQ, sender, q)))
  {
    AtMostOneFurther(live, target, p, foundP);
    AtMostOneFurther(live, target, q, foundQ);
    CandidateSet(foundP, sender, p);
    CandidateSet(foundQ, sender, q);
    OwnCandidates(live, Top(live, target), Members(foundP), Members(foundQ), sender, p, q);
  }

  /** How far apart the candidates of two providers can be. */
  ghost predicate Differ(live: set<nat>, top: set<nat>, p: nat, q: nat, a: set<nat>, b: set<nat>)
  {
    && (!(p in top && q in top) || |live| <= K ==> |a - b| <= 1 && |b - a| <= 1)
    && (p !in top && q !in top ==> a == b)
    && (|live| <= K ==> |a * b| <= 6)
  }

  lemma CandidateSet(found: seq<nat>, sender: nat, self: nat)
    ensures Members(Candidates(found, sender, self)) == Members(found) - {sender, self}
  {
  }

  lemma OwnCandidates(live: set<nat>, top: set<nat>, fp: set<nat>, fq: set<nat>, sender: nat, p: nat, q: nat)
    requires NearTop(live, top, p, fp) && NearTop(live, top, q, fq) && p != q
    ensures Differ(live, top, p, q, fp - {sender, p}, fq - {sender, q})
  {
    SmallSwarm(live, fp, fq, sender, p, q);
    if !(p in top && q in top) || |live| <= K {
      OneApart(live, top, fp, fq, sender, p, q);
      OneApart(live, top, fq, fp, sender, q, p);
    }
    if p !in top && q !in top {
      assert fp == top && fq == top;
    }
  }

  lemma OneApart(live: set<nat>, top: set<nat>, fp: set<nat>, fq: set<nat>, sender: nat, p: nat, q: nat)
    requires NearTop(live, top, p, fp) && NearTop(live, top, q, fq) && p != q
    requires !(p in top && q in top) || |live| <= K
    ensures |(fp - {sender, p}) - (fq - {sender, q})| <= 1
  {
    var a, b := fp - {sender, p}, fq - {sender, q};
    if q in top {
      SubsetSize(a - b, {q});
    } else {
      SubsetSize(a - b, fp - top);
    }
  }

  lemma SmallSwarm(live: set<nat>, fp: set<nat>, fq: set<nat>, sender: nat, p: nat, q: nat)
    requires p in live && q in live && p != q && fp <= live - {p} && fq <= live - {q}
    ensures |(fp - {sender, p}) * (fq - {sender, q})| <= |live| - 2
  {
    SubsetSize((fp - {sender, p}) * (fq - {sender, q}), live - {p, q});
    assert |live - {p, q}| == |live| - 2;
  }

  // ---------------------------------------------------------------- tables that stay

  /** During the lookup every node answers from one table, the querier included. */
  ghost predicate Steady(table: nat -> seq<Bucket>, self: nat, own: seq<Bucket>, tables: (nat, nat) -> seq<Bucket>) {
    own == table(self) && forall t, n :: tables(t, n) == table(n)
  }

  ghost predicate Refers(table: nat -> seq<Bucket>, target: nat, z: set<nat>) {
    forall n :: n in z ==> Heard(z, n, table(n), target)
  }

  lemma KnownRefers(table: nat -> seq<Bucket>, self: nat, own: seq<Bucket>, tables: (nat, nat) -> seq<Bucket>, target: nat, known: set<nat>)
    requires Steady(table, self, own, tables) && LeastClosed(self, own, tables, target, known)
    ensures self in known && Refers(table, target, known)
  {
    forall n | n in known ensures Heard(known, n, table(n), target) {
      assert HasAnswered(self, own, tables, target, known, n);
      var answered :| TableOf(self, own, tables, n, answered) && Heard(known, n, answered, target);
      assert answered == table(n);
    }
  }

  lemma KnownIsLeast(table: nat -> seq<Bucket>, self: nat, own: seq<Bucket>, tables: (nat, nat) -> seq<Bucket>, target: nat,
                     known: set<nat>, z: set<nat>)
    requires Steady(table, self, own, tables) && LeastClosed(self, own, tables, target, known)
    requires self in z && Refers(table, target, z)
    ensures known <= z
  {
    forall n, t | n in z && TableOf(self, own, tables, n, t) ensures Heard(z, n, t, target) {
      assert t == table(n);
    }
    assert Closed(self, own, tables, target, z);
  }

  /** While no table changes, two providers that hear of each other hear of the same nodes. */
  lemma SameKnown(table: nat -> seq<Bucket>, target: nat, p: nat, ownP: seq<Bucket>, tablesP: (nat, nat) -> seq<Bucket>, knownP: set<nat>,
                  q: nat, ownQ: seq<Bucket>, tablesQ: (nat, nat) -> seq<Bucket>, knownQ: set<nat>)
    requires Steady(table, p, ownP, tablesP) && LeastClosed(p, ownP, tablesP, target, knownP)
    requires Steady(table, q, ownQ, tablesQ) && LeastClosed(q, ownQ, tablesQ, target, knownQ)
    requires q in knownP && p in knownQ
    ensures knownP == knownQ
  {
    KnownRefers(table, p, ownP, tablesP, target, knownP);
    KnownRefers(table, q, ownQ, tablesQ, target, knownQ);
    KnownIsLeast(table, p, ownP, tablesP, target, knownP, knownQ);
    KnownIsLeast(table, q, ownQ, tablesQ, target, knownQ, knownP);
  }

  /** Two close providers that know the same nodes miss nobody but themselves. */
  lemma SelectedForBoth(live: set<nat>, target: nat, known: set<nat>, p: nat, q: nat, x: nat)
    requires known <= live && p in known && q in known && p != q
    requires AmongClosest(live, target, p) && AmongClosest(live, target, q)
    requires Selected(known, p, target, x) && x != q
    ensures AmongClosest(live, target, x) || Selected(known, q, target, x)
  {
    if !AmongClosest(live, target, x) {
      CloserThanOthers(live, target, p, x);
      CloserThanOthers(live, target, q, x);
      var cp, cq := Closer(known - {p}, target, x), Closer(known - {q}, target, x);
      assert cp - {q} == cq - {p} && q in cp && p in cq;
      assert |cp - {q}| == |cp| - 1 && |cq - {p}| == |cq| - 1;
    }
  }

  lemma CloserThanOthers(live: set<nat>, target: nat, p: nat, x: nat)
    requires AmongClosest(live, target, p) && x in live && !AmongClosest(live, target, x)
    ensures Distance(p, target) < Distance(x, target)
  {
    if Distance(x, target) <= Distance(p, target) {
      SubsetSize(Closer(live, target, x), Closer(live, target, p));
    }
  }

  /** While no table changes, two providers always share a witness, close to the key or not, as long as
      anybody is a candidate of both. */
  lemma SteadyLookupsShareWitnesses(live: set<nat>, target: nat, table: nat -> seq<Bucket>, sender: nat,
      p: nat, ownP: seq<Bucket>, tablesP: (nat, nat) -> seq<Bucket>, foundP: seq<nat>, knownP: set<nat>, earnedP: nat -> int,
      q: nat, ownQ: seq<Bucket>, tablesQ: (nat, nat) -> seq<Bucket>, foundQ: seq<nat>, knownQ: set<nat>, earnedQ: nat -> int)
    requires p in live && q in live && p != q
    requires Steady(table, p, ownP, tablesP) && LookedUp(live, target, p, ownP, tablesP, foundP, knownP)
    requires Steady(table, q, ownQ, tablesQ) && LookedUp(live, target, q, ownQ, tablesQ, foundQ, knownQ)
    ensures ShareEnough(foundP, foundQ, sender, p, q, earnedP, earnedQ, 1)
  {
    if AmongClosest(live, target, p) && AmongClosest(live, target, q) {
      assert q in foundP && p in foundQ;
      SameKnown(table, target, p, ownP, tablesP, knownP, q, ownQ, tablesQ, knownQ);
      OnlyEachOther(live, target, knownP, sender, p, foundP, q, foundQ);
      OnlyEachOther(live, target, knownP, sender, q, foundQ, p, foundP);
      ProvidersShareWitnesses(foundP, foundQ, sender, p, q, earnedP, earnedQ);
    } else {
      LookupsShareWitnesses(live, target, sender, p, q, foundP, foundQ, earnedP, earnedQ);
    }
  }

  lemma OnlyEachOther(live: set<nat>, target: nat, known: set<nat>, sender: nat, p: nat, foundP: seq<nat>, q: nat, foundQ: seq<nat>)
    requires known <= live && p in known && q in known && p != q
    requires AmongClosest(live, target, p) && AmongClosest(live, target, q)
    requires Promised(live, target, q, foundQ)
    requires forall x :: x in foundP <==> Selected(known, p, target, x)
    requires forall x :: x in foundQ <==> Selected(known, q, target, x)
    ensures |Members(Candidates(foundP, sender, p)) - Members(Candidates(foundQ, sender, q))| <= 1
  {
    var a, b := Members(Candidates(foundP, sender, p)), Members(Candidates(foundQ, sender, q));
    forall x | x in a - b ensures x == q {
      if x != q {
        SelectedForBoth(live, target, known, p, q, x);
      }
    }
    SubsetSize(a - b, {q});
  }

  /** The tables matter: if both providers are close and each finds another node in its own place, what a
      lookup promises allows committees without a common member. */
  lemma ChangingTablesShareNobody(live: set<nat>, target: nat, sender: nat, p: nat, q: nat, ns: seq<nat>, x: nat, y: nat)
    returns (earnedP: nat -> int, earnedQ: nat -> int)
    requires |ns| == 6 && Distinct(ns) && Distinct([sender, p, q, x, y]) && Members(ns) !! {sender, p, q, x, y}
    requires Members(ns) + {p, q, x, y} <= live
    requires forall n :: AmongClosest(live, target, n) <==> n in [p, q] + ns
    ensures var foundP, foundQ := [q] + ns + [x], [p] + ns + [y];
            && Promised(live, target, p, foundP) && Promised(live, target, q, foundQ)
            && Candidates(foundP, sender, p) == foundP && Candidates(foundQ, sender, q) == foundQ
            && Shared(foundP, foundQ, earnedP, earnedQ) == 0
  {
    var foundP, foundQ := [q] + ns + [x], [p] + ns + [y];
    FiveApart(sender, p, q, x, y);
    EndsDistinct(q, ns, x);
    EndsDistinct(p, ns, y);
    KeepsPromise(live, target, p, q, ns, x);
    KeepsPromise(live, target, q, p, ns, y);
    AllCandidates(foundP, sender, p);
    AllCandidates(foundQ, sender, q);
    earnedP, earnedQ := SmallestOverlap(foundP, foundQ);
    TenNodes(p, q, ns, x, y);
  }

  lemma FiveApart(a: nat, b: nat, c: nat, d: nat, e: nat)
    requires Distinct([a, b, c, d, e])
    ensures a != b && a != c && a != d && a != e && b != c && b != d && b != e && c != d && c != e && d != e
  {
    var s := [a, b, c, d, e];
    assert s[0] == a && s[1] == b && s[2] == c && s[3] == d && s[4] == e;
  }

  lemma KeepsPromise(live: set<nat>, target: nat, p: nat, q: nat, ns: seq<nat>, x: nat)
    requires |ns| == 6 && Distinct([q] + ns + [x]) && p !in [q] + ns + [x] && Members(ns) + {p, q, x} <= live
    requires forall n :: AmongClosest(live, target, n) <==> n in [p, q] + ns
    ensures Promised(live, target, p, [q] + ns + [x])
  {
    assert AmongClosest(live, target, p);
    assert Members([q] + ns + [x]) == Members(ns) + {q, x};
  }

  lemma TenNodes(p: nat, q: nat, ns: seq<nat>, x: nat, y: nat)
    requires |ns| == 6 && Distinct(ns) && Members(ns) !! {p, q, x, y} && p != q && p != x && p != y && q != x && q != y && x != y
    ensures |Members([q] + ns + [x]) + Members([p] + ns + [y])| == 10
  {
    DistinctSize(ns);
    var eight := Members(ns) + {p} + {q};
    assert |Members(ns) + {p}| == 7 && |eight| == 8;
    assert |eight + {x}| == 9 && |eight + {x} + {y}| == 10;
    assert Members([q] + ns + [x]) + Members([p] + ns + [y]) == eight + {x} + {y};
  }

  lemma EndsDistinct(first: nat, ns: seq<nat>, last: nat)
    requires Distinct(ns) && first != last && first !in ns && last !in ns
    ensures Distinct([first] + ns + [last])
  {
  }
}
