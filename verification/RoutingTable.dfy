/** K-buckets in the order they were first used, each an ordered dictionary with the most recently seen
    contact at the end. */
module RoutingTables {
  import opened Xor

  const K: nat := 8

  datatype Contact = Contact(id: nat, host: string, port: int)

  datatype Bucket = Bucket(index: nat, contacts: seq<Contact>)

  predicate HasId(cs: seq<Contact>, id: nat) {
    exists i :: 0 <= i < |cs| && cs[i].id == id
  }

  function Ids(cs: seq<Contact>): set<nat> {
    set c | c in cs :: c.id
  }

  ghost predicate DistinctIds(cs: seq<Contact>) {
    forall i, j :: 0 <= i < j < |cs| ==> cs[i].id != cs[j].id
  }

  /** `pop(id, None)`. */
  function Without(cs: seq<Contact>, id: nat): (out: seq<Contact>)
    ensures forall c :: c in out <==> c in cs && c.id != id
    ensures !HasId(cs, id) ==> out == cs
  {
    if cs == [] then []
    else
      assert forall c :: c in cs <==> c == cs[0] || c in cs[1..];
      assert HasId(cs[1..], id) ==> HasId(cs, id) by {
        if HasId(cs[1..], id) {
          var i :| 0 <= i < |cs[1..]| && cs[1..][i].id == id;
          assert cs[i + 1].id == id;
        }
      }
      if cs[0].id == id then Without(cs[1..], id) else [cs[0]] + Without(cs[1..], id)
  }

  function LastK(cs: seq<Contact>): seq<Contact> {
    if |cs| > K then cs[|cs| - K..] else cs
  }

  /** A contact is seen: it moves to the end, and the least recently seen one falls out of a full bucket. */
  function Seen(cs: seq<Contact>, c: Contact): seq<Contact> {
    LastK(Without(cs, c.id) + [c])
  }

  function FindBucket(table: seq<Bucket>, index: nat): (k: nat)
    ensures k <= |table| && (k < |table| ==> table[k].index == index)
    ensures k == |table| ==> forall j :: 0 <= j < |table| ==> table[j].index != index
  {
    if table == [] then 0 else if table[0].index == index then 0 else 1 + FindBucket(table[1..], index)
  }

  function BucketOf(table: seq<Bucket>, index: nat): seq<Contact> {
    var k := FindBucket(table, index);
    if k < |table| then table[k].contacts else []
  }

  function Put(table: seq<Bucket>, index: nat, contacts: seq<Contact>): seq<Bucket> {
    var k := FindBucket(table, index);
    if k < |table| then table[k := Bucket(index, contacts)] else table + [Bucket(index, contacts)]
  }

  function Add(own: nat, table: seq<Bucket>, c: Contact): seq<Bucket> {
    if c.id == own then table
    else Put(table, BucketIndex(own, c.id), Seen(BucketOf(table, BucketIndex(own, c.id)), c))
  }

  function Remove(own: nat, table: seq<Bucket>, id: nat): seq<Bucket> {
    var index := BucketIndex(own, id);
    if BucketOf(table, index) == [] then table else Put(table, index, Without(BucketOf(table, index), id))
  }

  function AllContacts(table: seq<Bucket>): seq<Contact> {
    if table == [] then [] else table[0].contacts + AllContacts(table[1..])
  }

  // ---------------------------------------------------------------- the shape that add and remove keep

  ghost predicate GoodBucket(own: nat, index: nat, cs: seq<Contact>)
  {
    && |cs| <= K && DistinctIds(cs)
    && forall c :: c in cs ==> c.id != own && BucketIndex(own, c.id) == index
  }

  ghost predicate GoodTable(own: nat, table: seq<Bucket>)
  {
    && (forall j, k :: 0 <= j < k < |table| ==> table[j].index != table[k].index)
    && forall k :: 0 <= k < |table| ==> GoodBucket(own, table[k].index, table[k].contacts)
  }

  lemma {:induction false} WithoutDistinct(cs: seq<Contact>, id: nat)
    requires DistinctIds(cs)
    ensures DistinctIds(Without(cs, id)) && |Without(cs, id)| <= |cs|
    ensures HasId(cs, id) ==> |Without(cs, id)| == |cs| - 1
  {
    if cs != [] {
      var rest := Without(cs[1..], id);
      TailDistinct(cs);
      WithoutDistinct(cs[1..], id);
      HeadIsNew(cs);
      if cs[0].id != id {
        forall i | 0 <= i < |rest| ensures rest[i].id != cs[0].id {
          assert rest[i] in cs[1..];
        }
        ConsDistinct(cs[0], rest);
        HasIdOfTail(cs, id);
      }
    }
  }

  lemma TailDistinct(cs: seq<Contact>)
    requires DistinctIds(cs) && cs != []
    ensures DistinctIds(cs[1..])
  {
  }

  lemma ConsDistinct(c: Contact, rest: seq<Contact>)
    requires DistinctIds(rest) && forall i :: 0 <= i < |rest| ==> rest[i].id != c.id
    ensures DistinctIds([c] + rest)
  {
  }

  lemma HasIdOfTail(cs: seq<Contact>, id: nat)
    requires cs != [] && cs[0].id != id
    ensures HasId(cs, id) ==> HasId(cs[1..], id)
  {
    if HasId(cs, id) {
      var i :| 0 <= i < |cs| && cs[i].id == id;
      assert cs[1..][i - 1].id == id;
    }
  }

  lemma HeadIsNew(cs: seq<Contact>)
    requires DistinctIds(cs) && cs != []
    ensures !HasId(cs[1..], cs[0].id) && forall c :: c in cs[1..] ==> c.id != cs[0].id
  {
    forall i | 0 <= i < |cs[1..]| ensures cs[1..][i].id != cs[0].id {
      assert cs[1..][i] == cs[i + 1];
    }
  }

  lemma SeenDistinct(cs: seq<Contact>, c: Contact)
    requires DistinctIds(cs)
    ensures DistinctIds(Seen(cs, c)) && |Seen(cs, c)| <= K
  {
    WithoutDistinct(cs, c.id);
    var rest := Without(cs, c.id);
    forall i | 0 <= i < |rest| ensures rest[i].id != c.id {
      assert rest[i] in rest;
    }
    SnocDistinct(rest, c);
    if |rest + [c]| > K {
      TailDistinct(rest + [c]);
    }
  }

  lemma SnocDistinct(rest: seq<Contact>, c: Contact)
    requires DistinctIds(rest) && forall i :: 0 <= i < |rest| ==> rest[i].id != c.id
    ensures DistinctIds(rest + [c])
  {
  }

  /** Seeing a contact keeps a good bucket good and always leaves the contact itself at the end. */
  lemma SeenGood(own: nat, index: nat, cs: seq<Contact>, c: Contact)
    requires GoodBucket(own, index, cs) && c.id != own && BucketIndex(own, c.id) == index
    ensures GoodBucket(own, index, Seen(cs, c))
    ensures Seen(cs, c) != [] && Seen(cs, c)[|Seen(cs, c)| - 1] == c
    ensures forall x :: x in Seen(cs, c) ==> x == c || x in cs
    ensures |cs| < K || HasId(cs, c.id) ==> forall x :: x in cs && x.id != c.id ==> x in Seen(cs, c)
  {
    SeenDistinct(cs, c);
    WithoutDistinct(cs, c.id);
    var long := Without(cs, c.id) + [c];
    forall x | x in Seen(cs, c) ensures x == c || x in cs {
      assert x in long;
    }
    if |cs| < K || HasId(cs, c.id) {
      assert Seen(cs, c) == long;
    }
  }

  /** Where a contact that is seen goes: a known one moves from its place to the end, a new one is appended,
      and if the bucket was full the one at its head, not seen for longest, falls out. */
  lemma SeenExactly(cs: seq<Contact>, c: Contact, at: nat)
    requires DistinctIds(cs) && |cs| <= 8 && at <= |cs|
    requires at < |cs| ==> cs[at].id == c.id
    requires at == |cs| ==> forall i :: 0 <= i < |cs| ==> cs[i].id != c.id
    ensures at < |cs| ==> Seen(cs, c) == cs[..at] + cs[at + 1..] + [c]
    ensures at == |cs| && |cs| < 8 ==> Seen(cs, c) == cs + [c]
    ensures at == |cs| && |cs| == 8 ==> Seen(cs, c) == cs[1..] + [c]
  {
    if at < |cs| {
      WithoutAt(cs, at);
    } else {
      assert !HasId(cs, c.id);
    }
  }

  lemma {:induction false} WithoutAt(cs: seq<Contact>, at: nat)
    requires DistinctIds(cs) && at < |cs|
    ensures Without(cs, cs[at].id) == cs[..at] + cs[at + 1..]
  {
    if at > 0 {
      TailDistinct(cs);
      WithoutAt(cs[1..], at - 1);
      assert cs[1..][..at - 1] == cs[1..at] && cs[1..][at..] == cs[at + 1..];
    } else {
      HeadIsNew(cs);
    }
  }

  lemma PutGood(own: nat, table: seq<Bucket>, index: nat, cs: seq<Contact>)
    requires GoodTable(own, table) && GoodBucket(own, index, cs)
    ensures GoodTable(own, Put(table, index, cs)) && BucketOf(Put(table, index, cs), index) == cs
    ensures forall other :: other != index ==> BucketOf(Put(table, index, cs), other) == BucketOf(table, other)
  {
    var k := FindBucket(table, index);
    var table' := Put(table, index, cs);
    var at := FindBucket(table', index);
    assert table'[k].index == index;
    assert at == k;
    forall other | other != index ensures BucketOf(table', other) == BucketOf(table, other) {
      var j, j' := FindBucket(table, other), FindBucket(table', other);
      if j < |table| {
        assert table'[j].index == other;
      }
      if j' < |table'| {
        assert j' != k && table[j'].index == other;
      }
    }
  }

  lemma BucketGood(own: nat, table: seq<Bucket>, index: nat)
    requires GoodTable(own, table)
    ensures GoodBucket(own, index, BucketOf(table, index))
  {
  }

  lemma AddGood(own: nat, table: seq<Bucket>, c: Contact)
    requires GoodTable(own, table)
    ensures GoodTable(own, Add(own, table, c))
  {
    if c.id != own {
      var index := BucketIndex(own, c.id);
      BucketGood(own, table, index);
      SeenGood(own, index, BucketOf(table, index), c);
      PutGood(own, table, index, Seen(BucketOf(table, index), c));
    }
  }

  lemma RemoveGood(own: nat, table: seq<Bucket>, id: nat)
    requires GoodTable(own, table)
    ensures GoodTable(own, Remove(own, table, id))
    ensures forall i :: BucketOf(Remove(own, table, id), i) ==
              if i == BucketIndex(own, id) then Without(BucketOf(table, i), id) else BucketOf(table, i)
  {
    var index := BucketIndex(own, id);
    BucketGood(own, table, index);
    WithoutDistinct(BucketOf(table, index), id);
    if BucketOf(table, index) != [] {
      PutGood(own, table, index, Without(BucketOf(table, index), id));
    }
  }

  /** A contact of the table is a contact of its bucket. */
  lemma {:induction false} ContactsByBucket(own: nat, table: seq<Bucket>, c: Contact)
    requires GoodTable(own, table)
    ensures c in AllContacts(table) <==> c in BucketOf(table, BucketIndex(own, c.id))
  {
    if table != [] {
      var index := BucketIndex(own, c.id);
      ContactsByBucket(own, table[1..], c);
      if table[0].index == index {
        assert FindBucket(table, index) == 0;
        assert forall j :: 0 <= j < |table[1..]| ==> table[1..][j].index != index;
      }
    }
  }

  lemma {:induction false} AllDistinct(own: nat, table: seq<Bucket>)
    requires GoodTable(own, table)
    ensures DistinctIds(AllContacts(table))
    ensures forall c :: c in AllContacts(table) ==> c.id != own && exists k :: 0 <= k < |table| && table[k].index == BucketIndex(own, c.id)
  {
    if table != [] {
      AllDistinct(own, table[1..]);
      forall c | c in AllContacts(table)
        ensures c.id != own && exists k :: 0 <= k < |table| && table[k].index == BucketIndex(own, c.id)
      {
        if c in table[0].contacts {
          assert table[0].index == BucketIndex(own, c.id);
        } else {
          var k :| 0 <= k < |table[1..]| && table[1..][k].index == BucketIndex(own, c.id);
          assert table[k + 1].index == BucketIndex(own, c.id);
        }
      }
      var first, rest := table[0].contacts, AllContacts(table[1..]);
      forall i, j | 0 <= i < |first| && 0 <= j < |rest| ensures first[i].id != rest[j].id {
        assert first[i] in first && rest[j] in rest;
        var k :| 0 <= k < |table[1..]| && table[1..][k].index == BucketIndex(own, rest[j].id);
        assert table[k + 1].index != table[0].index;
      }
    }
  }

  // ---------------------------------------------------------------- the closest contacts

  function InsertByDistance(c: Contact, cs: seq<Contact>, target: nat): (out: seq<Contact>)
    ensures |out| == |cs| + 1 && forall x :: x in out <==> x == c || x in cs
  {
    if cs == [] || Distance(c.id, target) <= Distance(cs[0].id, target) then [c] + cs
    else
      assert forall x :: x in cs <==> x == cs[0] || x in cs[1..];
      [cs[0]] + InsertByDistance(c, cs[1..], target)
  }

  function SortByDistance(cs: seq<Contact>, target: nat): (out: seq<Contact>)
    ensures |out| == |cs| && forall x :: x in out <==> x in cs
  {
    if cs == [] then []
    else
      assert forall x :: x in cs <==> x == cs[0] || x in cs[1..];
      InsertByDistance(cs[0], SortByDistance(cs[1..], target), target)
  }

  function FirstN(cs: seq<Contact>, n: nat): seq<Contact> {
    if |cs| > n then cs[..n] else cs
  }

  function ClosestOf(cs: seq<Contact>, target: nat, count: nat): seq<Contact> {
    FirstN(SortByDistance(cs, target), count)
  }

  ghost predicate Nearest(cs: seq<Contact>, target: nat) {
    forall i, j :: 0 <= i < j < |cs| ==> Distance(cs[i].id, target) < Distance(cs[j].id, target)
  }

  lemma HasIdTail(cs: seq<Contact>, id: nat)
    requires cs != []
    ensures HasId(cs[1..], id) ==> HasId(cs, id)
  {
    if HasId(cs[1..], id) {
      var i :| 0 <= i < |cs[1..]| && cs[1..][i].id == id;
      assert cs[i + 1].id == id;
    }
  }

  lemma HasIdSorted(cs: seq<Contact>, target: nat, id: nat)
    ensures HasId(SortByDistance(cs, target), id) ==> HasId(cs, id)
  {
    var sorted := SortByDistance(cs, target);
    if HasId(sorted, id) {
      var i :| 0 <= i < |sorted| && sorted[i].id == id;
      assert sorted[i] in cs;
    }
  }

  lemma {:induction false} InsertNearest(c: Contact, cs: seq<Contact>, target: nat)
    requires Nearest(cs, target) && !HasId(cs, c.id)
    ensures Nearest(InsertByDistance(c, cs, target), target)
  {
    if cs != [] {
      assert cs[0].id != c.id;
      if Distance(c.id, target) == Distance(cs[0].id, target) {
        DistanceInjective(c.id, cs[0].id, target);
      }
      if Distance(c.id, target) > Distance(cs[0].id, target) {
        HasIdTail(cs, c.id);
        InsertNearest(c, cs[1..], target);
        var rest := InsertByDistance(c, cs[1..], target);
        forall j | 0 <= j < |rest| ensures Distance(cs[0].id, target) < Distance(rest[j].id, target) {
          assert rest[j] in rest;
          if rest[j] != c {
            var i :| 0 <= i < |cs[1..]| && cs[1..][i] == rest[j];
            assert cs[i + 1] == rest[j];
          }
        }
      }
    }
  }

  lemma {:induction false} SortNearest(cs: seq<Contact>, target: nat)
    requires DistinctIds(cs)
    ensures Nearest(SortByDistance(cs, target), target)
  {
    if cs != [] {
      SortNearest(cs[1..], target);
      HasIdSorted(cs[1..], target, cs[0].id);
      HeadIsNew(cs);
      InsertNearest(cs[0], SortByDistance(cs[1..], target), target);
    }
  }

  /** The contacts of `cs` that are strictly closer to the target than `d`. */
  function CloserIds(cs: seq<Contact>, target: nat, d: nat): set<nat> {
    set c | c in cs && Distance(c.id, target) < d :: c.id
  }

  /** A selection of the `count` closest: sorted, and a contact is in it exactly when fewer than `count`
      others are closer. */
  lemma ClosestMeans(cs: seq<Contact>, target: nat, count: nat)
    requires DistinctIds(cs)
    ensures var out := ClosestOf(cs, target, count);
            && Nearest(out, target) && |out| == (if |cs| < count then |cs| else count)
            && (forall c :: c in out ==> c in cs)
            && forall c :: c in cs ==> (c in out <==> |CloserIds(cs, target, Distance(c.id, target))| < count)
  {
    var sorted, out := SortByDistance(cs, target), ClosestOf(cs, target, count);
    SortNearest(cs, target);
    forall c | c in cs ensures c in out <==> |CloserIds(cs, target, Distance(c.id, target))| < count {
      SelectedByRank(cs, sorted, target, count, c);
    }
    forall c | c in out ensures c in cs {
      assert c in sorted;
    }
  }

  lemma SelectedByRank(cs: seq<Contact>, sorted: seq<Contact>, target: nat, count: nat, c: Contact)
    requires Nearest(sorted, target) && c in cs && forall x :: x in sorted <==> x in cs
    ensures c in FirstN(sorted, count) <==> |CloserIds(cs, target, Distance(c.id, target))| < count
  {
    assert c in sorted;
    var k :| 0 <= k < |sorted| && sorted[k] == c;
    PositionIsRank(cs, sorted, target, k);
    var out := FirstN(sorted, count);
    if c in out {
      var j :| 0 <= j < |out| && out[j] == c;
      assert sorted[j] == c;
      assert j == k;
    }
  }

  lemma PositionIsRank(cs: seq<Contact>, sorted: seq<Contact>, target: nat, k: nat)
    requires Nearest(sorted, target) && k < |sorted| && forall x :: x in sorted <==> x in cs
    ensures |CloserIds(cs, target, Distance(sorted[k].id, target))| == k
  {
    var d := Distance(sorted[k].id, target);
    assert Ids(sorted[..k]) == CloserIds(cs, target, d) by {
      forall id | id in CloserIds(cs, target, d) ensures id in Ids(sorted[..k]) {
        var c :| c in cs && Distance(c.id, target) < d && c.id == id;
        assert c in sorted;
        var i :| 0 <= i < |sorted| && sorted[i] == c;
        assert i < k && sorted[..k][i] == c;
      }
      forall id | id in Ids(sorted[..k]) ensures id in CloserIds(cs, target, d) {
        var c :| c in sorted[..k] && c.id == id;
        var i :| 0 <= i < k && sorted[i] == c;
        assert c in sorted;
      }
    }
    NearestCount(sorted[..k], target);
  }

  lemma {:induction false} NearestCount(cs: seq<Contact>, target: nat)
    requires Nearest(cs, target)
    ensures |Ids(cs)| == |cs|
  {
    if cs != [] {
      NearestCount(cs[1..], target);
      assert cs[0].id !in Ids(cs[1..]);
      assert Ids(cs) == {cs[0].id} + Ids(cs[1..]) by {
        assert forall c :: c in cs <==> c == cs[0] || c in cs[1..];
      }
    }
  }

  // ---------------------------------------------------------------- the object

  class RoutingTable {
    const own: nat
    var buckets: seq<Bucket>

    ghost predicate Valid()
      reads this
    {
      GoodTable(own, buckets)
    }

    constructor (own: nat)
      ensures this.own == own && buckets == [] && Valid()
    {
      this.own := own;
      buckets := [];
    }

    method AddContact(c: Contact)
      requires Valid()
      modifies this
      ensures Valid() && buckets == Add(own, old(buckets), c)
    {
      AddGood(own, buckets, c);
      if c.id == own {
        return;
      }
      var index := BucketIndex(own, c.id);
      var bucket := Without(BucketOf(buckets, index), c.id) + [c];
      ghost var full := bucket;
      while |bucket| > K
        invariant |bucket| <= |full| && bucket == full[|full| - |bucket|..]
        invariant |full| > K ==> |bucket| >= K
        invariant |full| <= K ==> bucket == full
      {
        bucket := bucket[1..];
      }
      buckets := Put(buckets, index, bucket);
    }

    method RemoveContact(id: nat)
      requires Valid()
      modifies this
      ensures Valid() && buckets == Remove(own, old(buckets), id)
    {
      RemoveGood(own, buckets, id);
      var index := BucketIndex(own, id);
      var bucket := BucketOf(buckets, index);
      if bucket != [] {
        buckets := Put(buckets, index, Without(bucket, id));
      }
    }

    method Closest(target: nat, count: nat) returns (out: seq<Contact>)
      requires Valid()
      ensures out == ClosestOf(AllContacts(buckets), target, count)
      ensures Nearest(out, target)
    {
      AllDistinct(own, buckets);
      ClosestMeans(AllContacts(buckets), target, count);
      out := ClosestOf(AllContacts(buckets), target, count);
    }
  }
}
