/** The iterative lookup. It asks every contact it hears of, which makes it complete: no node among the
    K closest can stay unheard of while each routing table knows one node in every inhabited bucket. */
module Lookup {
  import opened Basics
  import opened Xor
  import opened RoutingTables

  const ALPHA: nat := 3

  /** Every contact of `n` is live, and every bucket of `n` that some live node belongs to holds one. */
  ghost predicate Covers(live: set<nat>, n: nat, table: seq<Bucket>)
  {
    && GoodTable(n, table)
    && (forall c :: c in AllContacts(table) ==> c.id in live)
    && forall x :: x in live && x != n ==> Knows(n, table, BucketIndex(n, x))
  }

  ghost predicate Knows(n: nat, table: seq<Bucket>, index: nat) {
    exists c :: c in AllContacts(table) && BucketIndex(n, c.id) == index
  }

  /** Hearing from a live node keeps a table covering, evictions included. Requests and replies do
      nothing else to the tables while every request is answered. */
  lemma AddKeepsCovering(live: set<nat>, n: nat, table: seq<Bucket>, c: Contact)
    requires Covers(live, n, table) && c.id in live
    ensures Covers(live, n, Add(n, table, c))
  {
    if c.id != n {
      var table', index := Add(n, table, c), BucketIndex(n, c.id);
      AddGood(n, table, c);
      BucketGood(n, table, index);
      SeenGood(n, index, BucketOf(table, index), c);
      PutGood(n, table, index, Seen(BucketOf(table, index), c));
      forall x | x in AllContacts(table') ensures x.id in live {
        ContactsByBucket(n, table', x);
        ContactsByBucket(n, table, x);
      }
      forall x | x in live && x != n ensures Knows(n, table', BucketIndex(n, x)) {
        if BucketIndex(n, x) == index {
          ContactsByBucket(n, table', c);
        } else {
          var d :| d in AllContacts(table) && BucketIndex(n, d.id) == BucketIndex(n, x);
          ContactsByBucket(n, table, d);
          ContactsByBucket(n, table', d);
        }
      }
    }
  }

  /** The live nodes strictly closer to the target than `x`. */
  function Closer(live: set<nat>, target: nat, x: nat): set<nat> {
    set y | y in live && Distance(y, target) < Distance(x, target)
  }

  predicate AmongClosest(live: set<nat>, target: nat, x: nat) {
    x in live && |Closer(live, target, x)| < K
  }

  function Answer(table: seq<Bucket>, target: nat): seq<Contact> {
    ClosestOf(AllContacts(table), target, K)
  }

  // ---------------------------------------------------------------- completeness

  /** Everything that `n` answers has been heard of: it is on the shortlist or is the querier. */
  ghost predicate Heard(known: set<nat>, n: nat, table: seq<Bucket>, target: nat) {
    forall c :: c in Answer(table, target) ==> c.id in known
  }

  /** Each known node has been asked, some time, while its table was covering. */
  ghost predicate AllAsked(live: set<nat>, known: set<nat>, asked: map<nat, seq<Bucket>>, target: nat)
  {
    forall n :: n in known ==> n in asked && Covers(live, n, asked[n]) && Heard(known, n, asked[n], target)
  }

  lemma {:induction false} NearestKnown(known: set<nat>, x: nat) returns (n: nat)
    requires known != {}
    ensures n in known && forall m :: m in known ==> Distance(n, x) <= Distance(m, x)
    decreases |known|
  {
    var m :| m in known;
    if known == {m} {
      n := m;
    } else {
      n := NearestKnown(known - {m}, x);
      if Distance(m, x) < Distance(n, x) {
        n := m;
      }
    }
  }

  /** A full answer cannot lie entirely before a node that is among the K closest. */
  lemma LastIsNotBefore(live: set<nat>, out: seq<Contact>, target: nat, x: nat)
    requires Nearest(out, target) && |out| == K && AmongClosest(live, target, x)
    requires forall c :: c in out ==> c.id in live
    ensures Distance(x, target) <= Distance(out[K - 1].id, target)
  {
    if Distance(out[K - 1].id, target) < Distance(x, target) {
      NearestCount(out, target);
      forall id | id in Ids(out) ensures id in Closer(live, target, x) {
        var d :| d in out && d.id == id;
        var i :| 0 <= i < |out| && out[i] == d;
      }
      SubsetSize(Ids(out), Closer(live, target, x));
    }
  }

  /** If the bucket mate `c` of `x` is missing from an answer, the answer holds a node between them. */
  lemma AnswerReachesPast(live: set<nat>, n: nat, table: seq<Bucket>, target: nat, x: nat, c: Contact) returns (r: Contact)
    requires Covers(live, n, table) && AmongClosest(live, target, x)
    requires c in AllContacts(table) && c !in Answer(table, target)
    ensures r in Answer(table, target) && Distance(x, target) <= Distance(r.id, target) <= Distance(c.id, target)
  {
    var all, out := AllContacts(table), Answer(table, target);
    AllDistinct(n, table);
    ClosestMeans(all, target, K);
    RankFits(all, target, c);
    r := out[K - 1];
    assert r in out && r in all;
    LastIsNotBefore(live, out, target, x);
    if Distance(r.id, target) > Distance(c.id, target) {
      SubsetSize(CloserIds(all, target, Distance(c.id, target)), CloserIds(all, target, Distance(r.id, target)));
    }
  }

  lemma RankFits(cs: seq<Contact>, target: nat, c: Contact)
    requires DistinctIds(cs) && c in cs && c !in ClosestOf(cs, target, K)
    ensures |ClosestOf(cs, target, K)| == K
  {
    assert c in SortByDistance(cs, target);
  }

  /** No live node among the K closest stays unknown. */
  lemma NobodyCloseIsMissed(live: set<nat>, known: set<nat>, asked: map<nat, seq<Bucket>>, target: nat, x: nat)
    requires known != {} && AllAsked(live, known, asked, target) && AmongClosest(live, target, x)
    ensures x in known
  {
    if x !in known {
      var n := NearestKnown(known, x);
      var table := asked[n];
      assert Knows(n, table, BucketIndex(n, x));
      var c :| c in AllContacts(table) && BucketIndex(n, c.id) == BucketIndex(n, x);
      AllDistinct(n, table);
      if c in Answer(table, target) {
        BucketMateIsCloser(n, x, c.id);
      } else {
        var r := AnswerReachesPast(live, n, table, target, x, c);
        BetweenBucketMates(n, x, c.id, r.id, target);
      }
      assert false;
    }
  }

  // ---------------------------------------------------------------- what the lookup returns

  /** With everybody close known, the K best of the shortlist are right: every close node other than the
      querier is returned; and nobody else is, unless the querier itself takes one of the K places. */
  lemma RankedShortlist(live: set<nat>, self: nat, shortlist: seq<Contact>, target: nat)
    requires self in live && DistinctIds(shortlist) && Ids(shortlist) <= live - {self}
    requires forall x :: AmongClosest(live, target, x) && x != self ==> x in Ids(shortlist)
    ensures var out := ClosestOf(shortlist, target, K);
            && Nearest(out, target)
            && (forall x :: AmongClosest(live, target, x) && x != self ==> x in Ids(out))
            && (!AmongClosest(live, target, self) ==> forall x :: x in Ids(out) ==> AmongClosest(live, target, x))
  {
    var out := ClosestOf(shortlist, target, K);
    ClosestMeans(shortlist, target, K);
    forall x | AmongClosest(live, target, x) && x != self ensures x in Ids(out) {
      var c :| c in shortlist && c.id == x;
      assert CloserIds(shortlist, target, Distance(x, target)) <= Closer(live, target, x) by {
        forall id | id in CloserIds(shortlist, target, Distance(x, target)) ensures id in Closer(live, target, x) {
          assert id in Ids(shortlist);
        }
      }
      SubsetSize(CloserIds(shortlist, target, Distance(x, target)), Closer(live, target, x));
    }
    if !AmongClosest(live, target, self) {
      forall x | x in Ids(out) ensures AmongClosest(live, target, x) {
        var c :| c in out && c.id == x;
        assert c in shortlist && x in Ids(shortlist);
        if !AmongClosest(live, target, x) {
          var front := KCloseBefore(live, target, x);
          forall y | y in front ensures y in CloserIds(shortlist, target, Distance(x, target)) {
            assert y != self && y in Ids(shortlist);
            var d :| d in shortlist && d.id == y;
          }
          SubsetSize(front, CloserIds(shortlist, target, Distance(x, target)));
        }
      }
    }
  }

  /** Before a node that is not among the K closest come at least K that are. */
  lemma {:induction false} KCloseBefore(live: set<nat>, target: nat, x: nat) returns (front: set<nat>)
    requires x in live && !AmongClosest(live, target, x)
    ensures |front| >= K && forall y :: y in front ==> AmongClosest(live, target, y) && Distance(y, target) < Distance(x, target)
    decreases Distance(x, target)
  {
    if z :| z in Closer(live, target, x) && !AmongClosest(live, target, z) {
      front := KCloseBefore(live, target, z);
    } else {
      front := Closer(live, target, x);
    }
  }

  // ---------------------------------------------------------------- the loop

  /** The tables of the whole swarm at any moment, and who is live. `tables(t, n)` is the table of `n`
      when it answers in round `t`; tables may change between rounds. */
  ghost predicate Healthy(live: set<nat>, tables: (nat, nat) -> seq<Bucket>) {
    forall t, n :: n in live ==> Covers(live, n, tables(t, n))
  }

  function Unasked(shortlist: seq<Contact>, queried: set<nat>): (out: seq<Contact>)
    ensures forall c :: c in out <==> c in shortlist && c.id !in queried
  {
    if shortlist == [] then []
    else
      assert forall c :: c in shortlist <==> c == shortlist[0] || c in shortlist[1..];
      var rest := Unasked(shortlist[1..], queried);
      if shortlist[0].id in queried then rest else [shortlist[0]] + rest
  }

  /** `setdefault` for every contact of a response but the querier itself. */
  function Learn(shortlist: seq<Contact>, self: nat, items: seq<Contact>): (out: seq<Contact>)
    ensures shortlist <= out
    ensures forall c :: c in out ==> c in shortlist || (c in items && c.id != self)
    ensures forall c :: c in items ==> c.id == self || c.id in Ids(out)
    decreases |items|
  {
    if items == [] then shortlist
    else
      assert forall c :: c in items <==> c == items[0] || c in items[1..];
      if items[0].id == self || HasId(shortlist, items[0].id) then
        assert HasId(shortlist, items[0].id) ==> items[0].id in Ids(shortlist) by {
          if HasId(shortlist, items[0].id) {
            var i :| 0 <= i < |shortlist| && shortlist[i].id == items[0].id;
            assert shortlist[i] in shortlist;
          }
        }
        Learn(shortlist, self, items[1..])
      else
        var more := shortlist + [items[0]];
        assert forall c :: c in more <==> c in shortlist || c == items[0];
        assert items[0] in more;
        Learn(more, self, items[1..])
  }

  lemma {:induction false} LearnDistinct(shortlist: seq<Contact>, self: nat, items: seq<Contact>)
    requires DistinctIds(shortlist)
    ensures DistinctIds(Learn(shortlist, self, items))
    decreases |items|
  {
    if items != [] {
      if items[0].id == self || HasId(shortlist, items[0].id) {
        LearnDistinct(shortlist, self, items[1..]);
      } else {
        LearnDistinct(shortlist + [items[0]], self, items[1..]);
      }
    }
  }

  /** What the loop keeps: a shortlist of live strangers, and for everyone asked so far (the querier's
      own table included) the table it answered from, all of whose answer has been heard. */
  ghost predicate Progress(live: set<nat>, self: nat, shortlist: seq<Contact>, queried: set<nat>,
                           asked: map<nat, seq<Bucket>>, target: nat)
  {
    && DistinctIds(shortlist) && Ids(shortlist) <= live - {self} && queried <= Ids(shortlist)
    && asked.Keys == queried + {self}
    && forall n :: n in asked ==> Covers(live, n, asked[n]) && Heard(Ids(shortlist) + {self}, n, asked[n], target)
  }

  function OnlySelf(self: nat, own: seq<Bucket>): map<nat, seq<Bucket>> {
    map[self := own]
  }

  predicate FirstAsked(cs: seq<Contact>, i: nat, queried: set<nat>)
    requires i <= |cs|
  {
    forall j :: 0 <= j < i ==> cs[j].id in queried
  }

  lemma OneMoreAsked(cs: seq<Contact>, i: nat, queried: set<nat>)
    requires i < |cs| && FirstAsked(cs, i, queried)
    ensures FirstAsked(cs, i + 1, queried + {cs[i].id})
  {
  }

  lemma AskedOneMore(live: set<nat>, self: nat, shortlist: seq<Contact>, queried: set<nat>,
                     asked: map<nat, seq<Bucket>>, target: nat, n: nat, table: seq<Bucket>)
    requires Progress(live, self, shortlist, queried, asked, target)
    requires n in Ids(shortlist) && Covers(live, n, table)
    ensures Progress(live, self, Learn(shortlist, self, Answer(table, target)), queried + {n}, asked[n := table], target)
    ensures Ids(shortlist) <= Ids(Learn(shortlist, self, Answer(table, target)))
  {
    var items := Answer(table, target);
    var longer := Learn(shortlist, self, items);
    LearnDistinct(shortlist, self, items);
    LearnLive(live, self, shortlist, n, table, target);
    LearnHeard(shortlist, self, n, table, target);
    forall m | m in asked ensures Heard(Ids(longer) + {self}, m, asked[m], target) {
      HeardMore(Ids(shortlist) + {self}, Ids(longer) + {self}, m, asked[m], target);
    }
  }

  lemma LearnLive(live: set<nat>, self: nat, shortlist: seq<Contact>, n: nat, table: seq<Bucket>, target: nat)
    requires Ids(shortlist) <= live - {self} && Covers(live, n, table)
    ensures Ids(shortlist) <= Ids(Learn(shortlist, self, Answer(table, target))) <= live - {self}
  {
    AnswerIsLive(live, n, table, target);
    LearnIds(shortlist, self, Answer(table, target));
  }

  lemma LearnHeard(shortlist: seq<Contact>, self: nat, n: nat, table: seq<Bucket>, target: nat)
    ensures Heard(Ids(Learn(shortlist, self, Answer(table, target))) + {self}, n, table, target)
  {
  }

  lemma HeardMore(known: set<nat>, more: set<nat>, n: nat, table: seq<Bucket>, target: nat)
    requires Heard(known, n, table, target) && known <= more
    ensures Heard(more, n, table, target)
  {
  }

  lemma ProgressStarts(live: set<nat>, self: nat, own: seq<Bucket>, target: nat)
    requires self in live && Covers(live, self, own)
    ensures Progress(live, self, Answer(own, target), {}, OnlySelf(self, own), target)
  {
    AllDistinct(self, own);
    ClosestMeans(AllContacts(own), target, K);
    NearestDistinct(Answer(own, target), target);
    AnswerIsLive(live, self, own, target);
  }

  lemma ProgressDone(live: set<nat>, self: nat, shortlist: seq<Contact>, queried: set<nat>,
                     asked: map<nat, seq<Bucket>>, target: nat)
    requires Progress(live, self, shortlist, queried, asked, target) && Ids(shortlist) <= queried
    ensures forall x :: AmongClosest(live, target, x) && x != self ==> x in Ids(shortlist)
  {
    forall x | AmongClosest(live, target, x) && x != self ensures x in Ids(shortlist) {
      NobodyCloseIsMissed(live, Ids(shortlist) + {self}, asked, target, x);
    }
  }

  /** A table that `n` may answer from: at some round, or the querier's own at the start. */
  ghost predicate TableOf(self: nat, own: seq<Bucket>, tables: (nat, nat) -> seq<Bucket>, n: nat, table: seq<Bucket>) {
    if n == self then table == own else exists t: nat :: table == tables(t, n)
  }

  /** Nodes that refer, whenever they are asked, to nobody outside. */
  ghost predicate Closed(self: nat, own: seq<Bucket>, tables: (nat, nat) -> seq<Bucket>, target: nat, z: set<nat>) {
    self in z && forall n, table :: n in z && TableOf(self, own, tables, n, table) ==> Heard(z, n, table, target)
  }

  /** What has been heard of comes from answers given, and so lies in every closed set. */
  ghost predicate Gathered(self: nat, own: seq<Bucket>, tables: (nat, nat) -> seq<Bucket>, target: nat,
                           shortlist: seq<Contact>, asked: map<nat, seq<Bucket>>)
  {
    && (forall n :: n in asked ==> TableOf(self, own, tables, n, asked[n]))
    && forall z: set<nat> :: Closed(self, own, tables, target, z) ==> Ids(shortlist) <= z
  }

  lemma GatheredStarts(self: nat, own: seq<Bucket>, tables: (nat, nat) -> seq<Bucket>, target: nat)
    ensures Gathered(self, own, tables, target, Answer(own, target), OnlySelf(self, own))
  {
    forall z: set<nat> | Closed(self, own, tables, target, z) ensures Ids(Answer(own, target)) <= z {
      assert TableOf(self, own, tables, self, own);
      assert Heard(z, self, own, target);
    }
  }

  lemma GatheredOneMore(self: nat, own: seq<Bucket>, tables: (nat, nat) -> seq<Bucket>, target: nat,
                        shortlist: seq<Contact>, asked: map<nat, seq<Bucket>>, n: nat, round: nat)
    requires Gathered(self, own, tables, target, shortlist, asked) && n in Ids(shortlist) && n != self
    ensures var table := tables(round, n);
            Gathered(self, own, tables, target, Learn(shortlist, self, Answer(table, target)), asked[n := table])
  {
    var table := tables(round, n);
    assert TableOf(self, own, tables, n, table);
    LearnIds(shortlist, self, Answer(table, target));
    forall z: set<nat> | Closed(self, own, tables, target, z)
      ensures Ids(Learn(shortlist, self, Answer(table, target))) <= z
    {
      assert Ids(shortlist) <= z;
      assert Heard(z, n, table, target);
    }
  }

  /** Everyone in `known` has answered with nobody outside it, and `known` is the least such set. */
  ghost predicate LeastClosed(self: nat, own: seq<Bucket>, tables: (nat, nat) -> seq<Bucket>, target: nat, known: set<nat>) {
    && self in known
    && (forall n :: n in known ==> HasAnswered(self, own, tables, target, known, n))
    && forall z: set<nat> :: Closed(self, own, tables, target, z) ==> known <= z
  }

  ghost predicate HasAnswered(self: nat, own: seq<Bucket>, tables: (nat, nat) -> seq<Bucket>, target: nat, known: set<nat>, n: nat) {
    exists table :: TableOf(self, own, tables, n, table) && Heard(known, n, table, target)
  }

  /** The K nodes of `known` closest to the target, the querier left out. */
  predicate Selected(known: set<nat>, self: nat, target: nat, x: nat) {
    x in known && x != self && |Closer(known - {self}, target, x)| < K
  }

  lemma GatheredDone(live: set<nat>, self: nat, own: seq<Bucket>, tables: (nat, nat) -> seq<Bucket>, target: nat,
                     shortlist: seq<Contact>, queried: set<nat>, asked: map<nat, seq<Bucket>>)
    requires Progress(live, self, shortlist, queried, asked, target) && Ids(shortlist) <= queried
    requires Gathered(self, own, tables, target, shortlist, asked)
    ensures LeastClosed(self, own, tables, target, Ids(shortlist) + {self})
  {
    var known := Ids(shortlist) + {self};
    forall n | n in known ensures HasAnswered(self, own, tables, target, known, n) {
      assert n in asked;
      assert TableOf(self, own, tables, n, asked[n]) && Heard(known, n, asked[n], target);
    }
  }

  lemma SelectedExactly(shortlist: seq<Contact>, self: nat, target: nat)
    requires DistinctIds(shortlist) && self !in Ids(shortlist)
    ensures forall x :: x in Ids(ClosestOf(shortlist, target, K)) <==> Selected(Ids(shortlist) + {self}, self, target, x)
  {
    var out, known := ClosestOf(shortlist, target, K), Ids(shortlist) + {self};
    ClosestMeans(shortlist, target, K);
    forall c | c in shortlist ensures CloserIds(shortlist, target, Distance(c.id, target)) == Closer(known - {self}, target, c.id) {
      assert known - {self} == Ids(shortlist);
    }
    forall x | x in Ids(out) ensures Selected(known, self, target, x) {
      var c :| c in out && c.id == x;
      assert c in shortlist;
    }
    forall x | Selected(known, self, target, x) ensures x in Ids(out) {
      var c :| c in shortlist && c.id == x;
      assert c in out;
    }
  }

  /** Whom a round asks: the three closest contacts of the shortlist that have not been asked, or all if
      there are fewer. */
  lemma RoundAsks(shortlist: seq<Contact>, queried: set<nat>, target: nat)
    requires DistinctIds(shortlist)
    ensures var unasked := Unasked(shortlist, queried);
            var asks := FirstN(SortByDistance(unasked, target), ALPHA);
            && |asks| == Min(3, |unasked|)
            && forall c :: c in asks <==> c in shortlist && c.id !in queried && |CloserIds(unasked, target, Distance(c.id, target))| < 3
  {
    UnaskedDistinct(shortlist, queried);
    ClosestMeans(Unasked(shortlist, queried), target, 3);
  }

  lemma {:induction false} UnaskedDistinct(shortlist: seq<Contact>, queried: set<nat>)
    requires DistinctIds(shortlist)
    ensures DistinctIds(Unasked(shortlist, queried))
  {
    if shortlist != [] {
      var rest := Unasked(shortlist[1..], queried);
      TailDistinct(shortlist);
      UnaskedDistinct(shortlist[1..], queried);
      HeadIsNew(shortlist);
      forall i | 0 <= i < |rest| ensures rest[i].id != shortlist[0].id {
        assert rest[i] in shortlist[1..];
      }
      ConsDistinct(shortlist[0], rest);
    }
  }

  /** One round: the candidates are asked together and their answers learned in turn. */
  method AskRound(self: nat, target: nat, round: nat, tables: (nat, nat) -> seq<Bucket>, candidates: seq<Contact>,
                  shortlist: seq<Contact>, queried: set<nat>,
                  ghost live: set<nat>, ghost own: seq<Bucket>, ghost asked: map<nat, seq<Bucket>>)
    returns (longer: seq<Contact>, queried': set<nat>, ghost asked': map<nat, seq<Bucket>>)
    requires Healthy(live, tables) && Progress(live, self, shortlist, queried, asked, target)
    requires Gathered(self, own, tables, target, shortlist, asked)
    requires forall c :: c in candidates ==> c.id in Ids(shortlist)
    ensures Progress(live, self, longer, queried', asked', target)
    ensures Gathered(self, own, tables, target, longer, asked')
    ensures queried <= queried' && forall c :: c in candidates ==> c.id in queried'
  {
    longer, queried', asked' := shortlist, queried, asked;
    for i := 0 to |candidates|
      invariant Progress(live, self, longer, queried', asked', target)
      invariant Gathered(self, own, tables, target, longer, asked')
      invariant Ids(shortlist) <= Ids(longer) && queried <= queried'
      invariant FirstAsked(candidates, i, queried')
    {
      var n := candidates[i].id;
      assert candidates[i] in candidates;
      OneMoreAsked(candidates, i, queried');
      assert Covers(live, n, tables(round, n));
      AskedOneMore(live, self, longer, queried', asked', target, n, tables(round, n));
      GatheredOneMore(self, own, tables, target, longer, asked', n, round);
      queried', asked' := queried' + {n}, asked'[n := tables(round, n)];
      longer := Learn(longer, self, Answer(tables(round, n), target));
    }
  }

  /** Each round asks the ALPHA closest contacts not asked yet, all of which answer. `known` are the nodes
      it heard of, with the querier. */
  method FindClosest(self: nat, own: seq<Bucket>, target: nat, tables: (nat, nat) -> seq<Bucket>, ghost live: set<nat>)
    returns (result: seq<Contact>, ghost known: set<nat>)
    requires self in live && Covers(live, self, own) && Healthy(live, tables)
    ensures Nearest(result, target) && |result| <= K
    ensures forall x :: x in Ids(result) ==> x in live && x != self
    ensures forall x :: AmongClosest(live, target, x) && x != self ==> x in Ids(result)
    ensures !AmongClosest(live, target, self) ==> forall x :: x in Ids(result) ==> AmongClosest(live, target, x)
    ensures known <= live && LeastClosed(self, own, tables, target, known)
    ensures forall x :: x in Ids(result) <==> Selected(known, self, target, x)
  {
    var shortlist := Answer(own, target);
    ProgressStarts(live, self, own, target);
    GatheredStarts(self, own, tables, target);
    var queried: set<nat> := {};
    ghost var asked := OnlySelf(self, own);
    var round := 0;
    while true
      invariant Progress(live, self, shortlist, queried, asked, target)
      invariant Gathered(self, own, tables, target, shortlist, asked)
      decreases |live - queried|
    {
      var candidates := FirstN(SortByDistance(Unasked(shortlist, queried), target), ALPHA);
      if candidates == [] {
        break;
      }
      SomeoneNew(shortlist, queried, target);
      assert candidates[0] in candidates;
      ghost var before := queried;
      shortlist, queried, asked := AskRound(self, target, round, tables, candidates, shortlist, queried, live, own, asked);
      SmallerRest(live, before, queried, candidates[0].id);
      round := round + 1;
    }
    NobodyLeft(shortlist, queried, target);
    ProgressDone(live, self, shortlist, queried, asked, target);
    RankedShortlist(live, self, shortlist, target);
    GatheredDone(live, self, own, tables, target, shortlist, queried, asked);
    SelectedExactly(shortlist, self, target);
    known := Ids(shortlist) + {self};
    result := ClosestOf(shortlist, target, K);
    ClosestMeans(shortlist, target, K);
    assert forall c :: c in result ==> c.id in Ids(shortlist);
  }

  lemma NearestDistinct(cs: seq<Contact>, target: nat)
    requires Nearest(cs, target)
    ensures DistinctIds(cs)
  {
    forall i, j | 0 <= i < j < |cs| ensures cs[i].id != cs[j].id {
      assert Distance(cs[i].id, target) < Distance(cs[j].id, target);
    }
  }

  lemma AnswerIsLive(live: set<nat>, n: nat, table: seq<Bucket>, target: nat)
    requires Covers(live, n, table)
    ensures forall c :: c in Answer(table, target) ==> c.id in live
  {
    AllDistinct(n, table);
    ClosestMeans(AllContacts(table), target, K);
  }

  lemma LearnIds(shortlist: seq<Contact>, self: nat, items: seq<Contact>)
    ensures Ids(shortlist) <= Ids(Learn(shortlist, self, items))
    ensures forall id :: id in Ids(Learn(shortlist, self, items)) ==> id in Ids(shortlist) || (id in Ids(items) && id != self)
  {
    var out := Learn(shortlist, self, items);
    forall c | c in shortlist ensures c in out {
      var i :| 0 <= i < |shortlist| && shortlist[i] == c;
      assert out[i] == c;
    }
  }

  lemma SomeoneNew(shortlist: seq<Contact>, queried: set<nat>, target: nat)
    ensures forall c :: c in FirstN(SortByDistance(Unasked(shortlist, queried), target), ALPHA) ==> c in shortlist && c.id !in queried
    ensures forall c :: c in FirstN(SortByDistance(Unasked(shortlist, queried), target), ALPHA) ==> c.id in Ids(shortlist)
  {
    var sorted := SortByDistance(Unasked(shortlist, queried), target);
    forall c | c in FirstN(sorted, ALPHA) ensures c in shortlist && c.id !in queried {
      assert c in sorted;
    }
  }

  lemma SmallerRest(live: set<nat>, before: set<nat>, after: set<nat>, n: nat)
    requires before <= after <= live && n in after && n !in before
    ensures |live - after| < |live - before|
  {
    assert live - before == (live - after) + (after - before);
    assert n in after - before;
  }

  lemma NobodyLeft(shortlist: seq<Contact>, queried: set<nat>, target: nat)
    requires FirstN(SortByDistance(Unasked(shortlist, queried), target), ALPHA) == []
    ensures Ids(shortlist) <= queried
  {
    assert SortByDistance(Unasked(shortlist, queried), target) == [];
    assert Unasked(shortlist, queried) == [];
    forall id | id in Ids(shortlist) ensures id in queried {
      var c :| c in shortlist && c.id == id;
      assert c.id in queried;
    }
  }
}
