/** Ten live nodes whose tables change between two lookups of one key: each of the closest eight first
    knows 16 and then 17 in its farthest bucket. Every table covers the swarm all the time, and yet the
    committees of the two providers have nobody in common. */
module ChangingTables {
  import opened Basics
  import opened Xor
  import opened RoutingTables
  import opened Lookup
  import opened Committee
  import opened WitnessSearch

  const NEAR: set<nat> := set x: nat | x < 8
  const LIVE: set<nat> := NEAR + {16, 17}

  // ---------------------------------------------------------------- tables of small ids

  /** Of the ids below 32, those in one bucket of `own`. */
  function InBucket(own: nat, index: nat, ids: seq<nat>): (out: seq<Contact>)
    ensures forall c :: c in out <==> c.id in ids && c.id != own && BucketIndex(own, c.id) == index && c == Contact(c.id, "", 0)
  {
    if ids == [] then []
    else
      assert forall x :: x in ids <==> x == ids[0] || x in ids[1..];
      var rest := InBucket(own, index, ids[1..]);
      if ids[0] != own && BucketIndex(own, ids[0]) == index then [Contact(ids[0], "", 0)] + rest else rest
  }

  function TableOfIds(own: nat, ids: seq<nat>): seq<Bucket> {
    seq(5, k requires 0 <= k < 5 => Bucket(k, InBucket(own, k, ids)))
  }

  lemma {:induction false} InBucketDistinct(own: nat, index: nat, ids: seq<nat>)
    requires Distinct(ids)
    ensures DistinctIds(InBucket(own, index, ids)) && |InBucket(own, index, ids)| <= |ids|
    ensures forall x :: x in ids && (x == own || BucketIndex(own, x) != index) ==> |InBucket(own, index, ids)| < |ids|
  {
    if ids != [] {
      InBucketDistinct(own, index, ids[1..]);
      assert forall x :: x in ids <==> x == ids[0] || x in ids[1..];
      var rest := InBucket(own, index, ids[1..]);
      forall i | 0 <= i < |rest| ensures rest[i].id != ids[0] {
        assert rest[i] in rest;
      }
      ConsDistinct(Contact(ids[0], "", 0), rest);
    }
  }

  lemma TableGood(own: nat, ids: seq<nat>)
    requires Distinct(ids) && forall k: nat :: k < 5 ==> |InBucket(own, k, ids)| <= K
    ensures GoodTable(own, TableOfIds(own, ids))
  {
    forall k: nat | k < 5 ensures GoodBucket(own, k, InBucket(own, k, ids)) {
      InBucketDistinct(own, k, ids);
    }
  }

  /** The table holds exactly the ids it was made from. */
  lemma TableContacts(own: nat, ids: seq<nat>)
    requires GoodTable(own, TableOfIds(own, ids)) && forall x :: x in ids ==> BucketIndex(own, x) < 5
    ensures forall c :: c in AllContacts(TableOfIds(own, ids)) <==> c.id in ids && c.id != own && c == Contact(c.id, "", 0)
  {
    var table := TableOfIds(own, ids);
    forall c ensures c in AllContacts(table) <==> c.id in ids && c.id != own && c == Contact(c.id, "", 0) {
      var index := BucketIndex(own, c.id);
      ContactsByBucket(own, table, c);
      if index < 5 {
        assert table[index].index == index;
        assert FindBucket(table, index) == index;
      }
    }
  }

  // ---------------------------------------------------------------- distances of small ids

  lemma {:induction false} DistanceToZero(x: nat)
    ensures Distance(x, 0) == x
  {
    if x > 0 {
      DistanceToZero(x / 2);
    }
  }

  lemma Halved(a: nat, b: nat)
    ensures Distance(a, b) / 2 == Distance(a / 2, b / 2)
  {
  }

  lemma ShiftedByFour(x: nat)
    ensures Shr(x, 4) == x / 16
  {
    assert Shr(x, 4) == Shr(x / 2, 3) == Shr(x / 2 / 2, 2) == Shr(x / 2 / 2 / 2, 1) == Shr(x / 2 / 2 / 2 / 2, 0);
  }

  lemma SixteenthDistance(a: nat, b: nat)
    ensures Distance(a, b) / 16 == Distance(a / 16, b / 16)
  {
    ShrDistance(a, b, 4);
    ShiftedByFour(a);
    ShiftedByFour(b);
    ShiftedByFour(Distance(a, b));
  }

  lemma LengthBelow(d: nat)
    requires d < 32
    ensures BitLength(d) <= 5 && (d >= 16 ==> BitLength(d) == 5) && (d < 2 ==> BitLength(d) <= 1)
  {
    assert BitLength(d) == if d == 0 then 0 else 1 + BitLength(d / 2);
    assert BitLength(d / 2) == if d / 2 == 0 then 0 else 1 + BitLength(d / 2 / 2);
    assert BitLength(d / 4) == if d / 4 == 0 then 0 else 1 + BitLength(d / 4 / 2);
    assert BitLength(d / 8) == if d / 8 == 0 then 0 else 1 + BitLength(d / 8 / 2);
    assert BitLength(d / 16) == if d / 16 == 0 then 0 else 1 + BitLength(d / 16 / 2);
  }

  /** Ids below 16 see all others below 32 in bucket 4, and the other way round. */
  lemma Buckets(a: nat, b: nat)
    requires a < 32 && b < 32
    ensures BucketIndex(a, b) < 5
    ensures (a < 16 <==> b >= 16) ==> BucketIndex(a, b) == 4
    ensures a / 2 == b / 2 ==> BucketIndex(a, b) == 0
  {
    SixteenthDistance(a, b);
    assert Distance(0, 0) == 0 && Distance(0, 1) == 1 && Distance(1, 0) == 1 && Distance(1, 1) == 0;
    LengthBelow(Distance(a, b));
    Halved(a, b);
    DistanceToSelf(a / 2);
  }

  // ---------------------------------------------------------------- the two states of the swarm

  /** The closest eight know each other and `far`; the two far nodes know everybody. */
  function Contacts(n: nat, far: nat): seq<nat>
  {
    [0, 1, 2, 3, 4, 5, 6, 7] + if n == 16 then [17] else if n == 17 then [16] else [far]
  }

  function TableIn(far: nat): nat -> seq<Bucket> {
    (n: nat) => TableOfIds(n, Contacts(n, far))
  }

  function TablesIn(far: nat): (nat, nat) -> seq<Bucket> {
    (t: nat, n: nat) => TableOfIds(n, Contacts(n, far))
  }

  lemma ContactsAre(n: nat, far: nat)
    requires far in {16, 17}
    ensures Distinct(Contacts(n, far)) && |Contacts(n, far)| == 9
    ensures Members(Contacts(n, far)) == NEAR + {if n == 16 then 17 else if n == 17 then 16 else far}
  {
  }

  lemma TableInGood(n: nat, far: nat)
    requires n in LIVE && far in {16, 17}
    ensures GoodTable(n, TableIn(far)(n))
    ensures forall c :: c in AllContacts(TableIn(far)(n)) <==> c.id in Contacts(n, far) && c.id != n && c == Contact(c.id, "", 0)
  {
    var ids := Contacts(n, far);
    ContactsAre(n, far);
    forall x | x in ids ensures BucketIndex(n, x) < 5 {
      assert x in Members(ids);
      Buckets(n, x);
    }
    forall k: nat | k < 5 ensures |InBucket(n, k, ids)| <= K {
      InBucketDistinct(n, k, ids);
      Outside(n, k, far);
    }
    TableGood(n, ids);
    TableContacts(n, ids);
  }

  /** No bucket takes all nine. */
  lemma Outside(n: nat, k: nat, far: nat)
    requires n in LIVE && far in {16, 17}
    ensures exists x :: x in Contacts(n, far) && (x == n || BucketIndex(n, x) != k)
  {
    var ids := Contacts(n, far);
    if n in NEAR {
      assert n in Members(ids) by {
        ContactsAre(n, far);
      }
    } else {
      var other: nat := if n == 16 then 17 else 16;
      Buckets(n, 0);
      Buckets(n, other);
      assert ids[0] == 0 && ids[8] == other;
    }
  }

  lemma TableInCovers(n: nat, far: nat)
    requires n in LIVE && far in {16, 17}
    ensures Covers(LIVE, n, TableIn(far)(n))
  {
    var table := TableIn(far)(n);
    TableInGood(n, far);
    ContactsAre(n, far);
    forall c | c in AllContacts(table) ensures c.id in LIVE {
      assert c.id in Members(Contacts(n, far));
    }
    forall x | x in LIVE && x != n ensures Knows(n, table, BucketIndex(n, x)) {
      var y := if x in Members(Contacts(n, far)) then x else far;
      assert y in Members(Contacts(n, far));
      assert Contact(y, "", 0) in AllContacts(table);
      Buckets(n, x);
      Buckets(n, y);
    }
  }

  // ---------------------------------------------------------------- what is answered

  lemma CloserToZero(s: set<nat>, x: nat)
    ensures Closer(s, 0, x) == set y | y in s && y < x
  {
    forall y ensures Distance(y, 0) == y {
      DistanceToZero(y);
    }
    DistanceToZero(x);
  }

  lemma NearSize()
    ensures |NEAR| == 8
  {
    assert NEAR == {0, 1, 2, 3, 4, 5, 6, 7};
  }

  /** The eight are the K closest. */
  lemma ClosestAreNear(x: nat)
    ensures AmongClosest(LIVE, 0, x) <==> x in NEAR
  {
    NearSize();
    CloserToZero(LIVE, x);
    if x in NEAR {
      SubsetSize(Closer(LIVE, 0, x), NEAR - {x});
    } else if x in LIVE {
      SubsetSize(NEAR, Closer(LIVE, 0, x));
    }
  }

  /** All that `n` knows. */
  function Known(n: nat, far: nat): set<nat> {
    if n in NEAR then NEAR - {n} + {far} else if n == 16 then NEAR + {17} else NEAR + {16}
  }

  /** A near node answers with all it knows, a far one with the eight near ones only. */
  lemma AnswersIn(n: nat, far: nat)
    requires n in LIVE && far in {16, 17}
    ensures Ids(Answer(TableIn(far)(n), 0)) == if n in NEAR then NEAR - {n} + {far} else NEAR
  {
    var all := AllContacts(TableIn(far)(n));
    TableInGood(n, far);
    AllDistinct(n, TableIn(far)(n));
    IdsKnown(n, far, all);
    AnswerIsTop(all, Known(n, far));
    forall x ensures x in Known(n, far) && |Closer(Known(n, far), 0, x)| < K <==> x in Known(n, far) && (n in NEAR || x in NEAR) {
      Ranked(n, far, x);
    }
  }

  /** Which of them come first. */
  lemma Ranked(n: nat, far: nat, x: nat)
    requires n in LIVE && far in {16, 17}
    ensures x in Known(n, far) ==> (|Closer(Known(n, far), 0, x)| < K <==> n in NEAR || x in NEAR)
  {
    var known := Known(n, far);
    NearSize();
    CloserToZero(known, x);
    if x in known {
      if n in NEAR || x in NEAR {
        SubsetSize(Closer(known, 0, x), if n in NEAR then known - {x} else NEAR - {x});
      } else {
        SubsetSize(NEAR, Closer(known, 0, x));
      }
    }
  }

  lemma AnswerIsTop(all: seq<Contact>, known: set<nat>)
    requires DistinctIds(all) && Ids(all) == known && forall x :: x in known ==> Contact(x, "", 0) in all
    ensures forall x :: x in Ids(ClosestOf(all, 0, K)) <==> x in known && |Closer(known, 0, x)| < K
  {
    var out := ClosestOf(all, 0, K);
    ClosestMeans(all, 0, K);
    forall c | c in all ensures c in out <==> |Closer(known, 0, c.id)| < K {
      RankAmong(all, known, c.id);
    }
    forall x | x in Ids(out) ensures x in known && |Closer(known, 0, x)| < K {
      var c :| c in out && c.id == x;
      assert c in all;
    }
    forall x | x in known && |Closer(known, 0, x)| < K ensures x in Ids(out) {
      assert Contact(x, "", 0) in out;
    }
  }

  lemma IdsKnown(n: nat, far: nat, all: seq<Contact>)
    requires n in LIVE && far in {16, 17}
    requires forall c :: c in all <==> c.id in Contacts(n, far) && c.id != n && c == Contact(c.id, "", 0)
    ensures Ids(all) == Known(n, far) && forall x :: x in Known(n, far) ==> Contact(x, "", 0) in all
  {
    ContactsAre(n, far);
    forall x ensures x in Known(n, far) <==> x in Contacts(n, far) && x != n {
      assert x in Contacts(n, far) <==> x in Members(Contacts(n, far));
    }
    forall x | x in Known(n, far) ensures Contact(x, "", 0) in all && x in Ids(all) {
      assert Contact(x, "", 0).id == x;
    }
  }

  lemma RankAmong(all: seq<Contact>, known: set<nat>, x: nat)
    requires Ids(all) == known
    ensures CloserIds(all, 0, Distance(x, 0)) == Closer(known, 0, x)
  {
    forall y | y in Closer(known, 0, x) ensures y in CloserIds(all, 0, Distance(x, 0)) {
      var c :| c in all && c.id == y;
    }
    forall y | y in CloserIds(all, 0, Distance(x, 0)) ensures y in Closer(known, 0, x) {
      var c :| c in all && Distance(c.id, 0) < Distance(x, 0) && c.id == y;
      assert y in Ids(all);
    }
  }

  // ---------------------------------------------------------------- the two lookups

  /** A near node hears of the near nodes and of `far`, and of nobody else. */
  lemma HearsOf(self: nat, far: nat)
    requires self in NEAR && far in {16, 17}
    ensures LeastClosed(self, TableIn(far)(self), TablesIn(far), 0, NEAR + {far})
  {
    var own, tables, known := TableIn(far)(self), TablesIn(far), NEAR + {far};
    forall n | n in known ensures HasAnswered(self, own, tables, 0, known, n) {
      AnswersIn(n, far);
      assert tables(0, n) == TableIn(far)(n);
      assert TableOf(self, own, tables, n, TableIn(far)(n));
      HeardWithin(known, n, TableIn(far)(n));
    }
    forall z: set<nat> | Closed(self, own, tables, 0, z) ensures known <= z {
      assert TableOf(self, own, tables, self, own) && Heard(z, self, own, 0);
      AnswersIn(self, far);
      assert NEAR - {self} + {far} <= z;
    }
  }

  lemma HeardWithin(known: set<nat>, n: nat, table: seq<Bucket>)
    requires Ids(Answer(table, 0)) <= known
    ensures Heard(known, n, table, 0)
  {
  }

  /** And its lookup returns them all. */
  lemma Finds(self: nat, far: nat, found: seq<nat>)
    requires self in NEAR && far in {16, 17} && Distinct(found) && Members(found) == NEAR - {self} + {far}
    ensures LookedUp(LIVE, 0, self, TableIn(far)(self), TablesIn(far), found, NEAR + {far})
  {
    var known := NEAR + {far};
    HearsOf(self, far);
    assert known - {self} == Known(self, far);
    forall x ensures x in found <==> Selected(known, self, 0, x) {
      assert x in found <==> x in Members(found);
      Ranked(self, far, x);
    }
    KeepsPromiseHere(self, far, found);
  }

  lemma KeepsPromiseHere(self: nat, far: nat, found: seq<nat>)
    requires self in NEAR && far in {16, 17} && Distinct(found) && Members(found) == NEAR - {self} + {far}
    ensures Promised(LIVE, 0, self, found)
  {
    NearSize();
    DistinctSize(found);
    ClosestAreNear(self);
    forall x | AmongClosest(LIVE, 0, x) && x != self ensures x in found {
      ClosestAreNear(x);
      assert x in Members(found);
    }
  }

  lemma AlwaysHealthy(far: nat)
    requires far in {16, 17}
    ensures Healthy(LIVE, TablesIn(far))
  {
    forall t: nat, n: nat | n in LIVE ensures Covers(LIVE, n, TablesIn(far)(t, n)) {
      TableInCovers(n, far);
      assert TablesIn(far)(t, n) == TableIn(far)(n);
    }
  }

  const FOUND_BY_6: seq<nat> := [0, 1, 2, 3, 4, 5, 7, 16]
  const FOUND_BY_7: seq<nat> := [0, 1, 2, 3, 4, 5, 6, 17]

  lemma FoundAre()
    ensures |FOUND_BY_6| == 8 && Distinct(FOUND_BY_6) && Members(FOUND_BY_6) == NEAR - {6} + {16}
    ensures |FOUND_BY_7| == 8 && Distinct(FOUND_BY_7) && Members(FOUND_BY_7) == NEAR - {7} + {17}
  {
  }

  lemma NoCommonWitness(foundP: seq<nat>, foundQ: seq<nat>) returns (earnedP: nat -> int, earnedQ: nat -> int)
    requires |foundP| == 8 && Distinct(foundP) && Members(foundP) == NEAR - {6} + {16}
    requires |foundQ| == 8 && Distinct(foundQ) && Members(foundQ) == NEAR - {7} + {17}
    ensures Shared(Candidates(foundP, 18, 6), Candidates(foundQ, 18, 7), earnedP, earnedQ) == 0
  {
    assert 18 !in Members(foundP) && 6 !in Members(foundP) && 18 !in Members(foundQ) && 7 !in Members(foundQ);
    AllCandidates(foundP, 18, 6);
    AllCandidates(foundQ, 18, 7);
    earnedP, earnedQ := SmallestOverlap(foundP, foundQ);
    TenInAll(Members(foundP), Members(foundQ));
  }

  lemma TenInAll(a: set<nat>, b: set<nat>)
    requires a == NEAR - {6} + {16} && b == NEAR - {7} + {17}
    ensures |a + b| == 10
  {
    NearSize();
    assert a + b == NEAR + {16} + {17};
    assert |NEAR + {16}| == 9 && |NEAR + {16} + {17}| == 10;
  }

  /** Node 6 looks the key up while the tables name 16, node 7 while they name 17. Both lookups run on
      covering tables, and no witness is common to both committees of the sender 18. */
  lemma LookupsShareNobody() returns (earnedP: nat -> int, earnedQ: nat -> int)
    ensures Healthy(LIVE, TablesIn(16)) && Healthy(LIVE, TablesIn(17))
    ensures Covers(LIVE, 6, TableIn(16)(6)) && Covers(LIVE, 7, TableIn(17)(7))
    ensures LookedUp(LIVE, 0, 6, TableIn(16)(6), TablesIn(16), FOUND_BY_6, NEAR + {16})
    ensures LookedUp(LIVE, 0, 7, TableIn(17)(7), TablesIn(17), FOUND_BY_7, NEAR + {17})
    ensures Shared(Candidates(FOUND_BY_6, 18, 6), Candidates(FOUND_BY_7, 18, 7), earnedP, earnedQ) == 0
  {
    AlwaysHealthy(16);
    AlwaysHealthy(17);
    TableInCovers(6, 16);
    TableInCovers(7, 17);
    FoundAre();
    Finds(6, 16, FOUND_BY_6);
    Finds(7, 17, FOUND_BY_7);
    earnedP, earnedQ := NoCommonWitness(FOUND_BY_6, FOUND_BY_7);
  }
}
