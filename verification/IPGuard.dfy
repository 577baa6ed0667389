/** Per-address accounting. Idle entries are dropped when the table is full; entries with an open
    connection never are, so no connection is forgotten and the table stays small. */
module IPGuards {
  import opened Basics
  import opened RateLimit

  /** Addresses, numbered in the order of their text. */
  type Ip = nat

  datatype Entry = Entry(bucket: Bucket, connections: nat, lastSeen: real)

  datatype Limits = Limits(rate: real, burst: real, maxConcurrent: int, maxTracked: int)

  type Table = map<Ip, Entry>

  function Idle(t: Table): set<Ip> {
    set ip | ip in t && t[ip].connections == 0
  }

  function Active(t: Table): set<Ip> {
    set ip | ip in t && t[ip].connections > 0
  }

  function Connections(t: Table, ip: Ip): nat {
    if ip in t then t[ip].connections else 0
  }

  /** Longest idle first, ties by address. */
  predicate Before(t: Table, x: Ip, y: Ip)
    requires x in t && y in t
  {
    t[x].lastSeen < t[y].lastSeen || (t[x].lastSeen == t[y].lastSeen && x < y)
  }

  function EvictCount(idle: nat): nat {
    Min(idle, Max(1, idle / 4))
  }

  /** The longest-idle quarter of the idle entries is gone, at least one of them if there is any. */
  ghost predicate Evicted(t: Table, t': Table)
  {
    var gone := t.Keys - t'.Keys;
    && t' == t - gone && gone <= Idle(t) && |gone| == EvictCount(|Idle(t)|)
    && forall x, y :: x in gone && y in Idle(t) && y !in gone ==> Before(t, x, y)
  }

  function FreshEntry(l: Limits, now: real): Entry {
    Entry(Bucket(l.rate, l.burst, l.burst, now), 0, now)
  }

  /** Room is made only when the table is full. */
  ghost predicate MadeRoom(l: Limits, t: Table, u: Table) {
    if |t| >= l.maxTracked then Evicted(t, u) else u == t
  }

  /** Looking an address up: a known one is refreshed, a new one is added after making room. */
  ghost predicate Looked(l: Limits, t: Table, ip: Ip, now: real, t': Table)
  {
    if ip in t then t' == t[ip := t[ip].(lastSeen := now)]
    else exists u :: MadeRoom(l, t, u) && t' == u[ip := FreshEntry(l, now)]
  }

  datatype Event =
    | Request(ip: Ip, now: real, granted: bool)
    | Connect(ip: Ip, now: real, granted: bool)
    | Disconnect(ip: Ip)

  ghost predicate Next(l: Limits, t: Table, e: Event, t': Table)
  {
    match e
    case Request(ip, now, granted) =>
      exists u: Table :: Looked(l, t, ip, now, u) && ip in u
        && granted == Grants(u[ip].bucket, Call(now, 1.0))
        && t' == u[ip := u[ip].(bucket := Take(u[ip].bucket, Call(now, 1.0)))]
    case Connect(ip, now, granted) =>
      exists u: Table :: Looked(l, t, ip, now, u) && ip in u
        && granted == (u[ip].connections < l.maxConcurrent)
        && t' == if granted then u[ip := u[ip].(connections := u[ip].connections + 1)] else u
    case Disconnect(ip) =>
      t' == if Connections(t, ip) > 0 then t[ip := t[ip].(connections := t[ip].connections - 1)] else t
  }

  // ---------------------------------------------------------------- one step

  ghost predicate SameCounts(t: Table, t': Table) {
    forall ip :: Connections(t', ip) == Connections(t, ip)
  }

  lemma EvictedKeeps(t: Table, t': Table)
    requires Evicted(t, t')
    ensures SameCounts(t, t') && |t'| + 1 <= Max(|t|, |Active(t)| + 1)
  {
    var gone := t.Keys - t'.Keys;
    assert t'.Keys == t.Keys - gone;
    assert |t'.Keys| == |t.Keys| - |gone|;
    if Idle(t) == {} {
      assert t.Keys == Active(t);
    }
  }

  /** Who is dropped: idle addresses only, a quarter of them rounded down but at least one, and nobody
      seen later than an idle address that stays. */
  lemma LongestIdleGo(t: Table, t': Table)
    requires Evicted(t, t')
    ensures forall ip :: ip in t && ip !in t' ==> t[ip].connections == 0
    ensures forall ip :: ip in t' ==> ip in t && t'[ip] == t[ip]
    ensures var idle := |set ip | ip in t && t[ip].connections == 0|;
            |t| - |t'| == if idle < 4 then (if idle == 0 then 0 else 1) else idle / 4
    ensures forall x, y :: x in t && x !in t' && y in t' && t[y].connections == 0 ==>
              t[x].lastSeen < t[y].lastSeen || (t[x].lastSeen == t[y].lastSeen && x < y)
  {
    var gone := t.Keys - t'.Keys;
    assert Idle(t) == set ip | ip in t && t[ip].connections == 0;
    assert t'.Keys == t.Keys - gone;
    assert |t'.Keys| == |t.Keys| - |gone|;
    forall x, y | x in t && x !in t' && y in t' && t[y].connections == 0
      ensures t[x].lastSeen < t[y].lastSeen || (t[x].lastSeen == t[y].lastSeen && x < y)
    {
      assert x in gone && y in Idle(t) && y !in gone;
      assert Before(t, x, y);
    }
  }

  /** Below the cap nobody is dropped, and a known address never costs anybody its place. */
  lemma NobodyDroppedWithRoom(l: Limits, t: Table, ip: Ip, now: real, t': Table)
    requires Looked(l, t, ip, now, t') && (|t| < l.maxTracked || ip in t)
    ensures t'.Keys == t.Keys + {ip} && t'[ip].lastSeen == now
    ensures forall x :: x in t && x != ip ==> t'[x] == t[x]
    ensures ip !in t ==> t'[ip].connections == 0 && t'[ip].bucket == Bucket(l.rate, l.burst, l.burst, now)
  {
  }

  lemma FreshEntryKeeps(l: Limits, t: Table, ip: Ip, now: real)
    requires ip !in t
    ensures SameCounts(t, t[ip := FreshEntry(l, now)]) && |t[ip := FreshEntry(l, now)]| == |t| + 1
  {
  }

  lemma UpdateKeepsSize(t: Table, ip: Ip, e: Entry)
    requires ip in t
    ensures |t[ip := e]| == |t|
  {
    assert t[ip := e].Keys == t.Keys;
  }

  lemma CountsTrans(t: Table, u: Table, v: Table)
    requires SameCounts(t, u) && SameCounts(u, v)
    ensures SameCounts(t, v)
  {
    forall ip ensures Connections(v, ip) == Connections(t, ip) {
      assert Connections(u, ip) == Connections(t, ip);
    }
  }

  /** A lookup changes no connection count, and makes the table larger only while it is below the cap or
      every entry in it has a connection open. */
  lemma LookedKeeps(l: Limits, t: Table, ip: Ip, now: real, t': Table)
    requires Looked(l, t, ip, now, t')
    ensures ip in t' && SameCounts(t, t') && |t'| <= Max(|t|, Max(l.maxTracked, |Active(t)| + 1))
  {
    if ip in t {
      UpdateKeepsSize(t, ip, t[ip].(lastSeen := now));
    } else {
      var u: Table :| MadeRoom(l, t, u) && t' == u[ip := FreshEntry(l, now)];
      RoomKeeps(l, t, u);
      FreshEntryKeeps(l, u, ip, now);
      CountsTrans(t, u, t');
    }
  }

  lemma RoomKeeps(l: Limits, t: Table, u: Table)
    requires MadeRoom(l, t, u)
    ensures u.Keys <= t.Keys && SameCounts(t, u) && |u| + 1 <= Max(|t|, Max(l.maxTracked, |Active(t)| + 1))
  {
    if |t| >= l.maxTracked {
      EvictedKeeps(t, u);
    }
  }

  /** How an event moves the count of an address. */
  function Effect(l: Limits, t: Table, e: Event, ip: Ip): int
  {
    match e
    case Connect(x, _, granted) => if x == ip && granted then 1 else 0
    case Disconnect(x) => if x == ip && Connections(t, ip) > 0 then -1 else 0
    case Request(_, _, _) => 0
  }

  /** What each event does to the counts and to the size. */
  lemma NextKeeps(l: Limits, t: Table, e: Event, t': Table)
    requires l.maxConcurrent >= 0 && Next(l, t, e, t')
    ensures forall ip :: Connections(t', ip) == Connections(t, ip) + Effect(l, t, e, ip)
    ensures e.Connect? && e.granted ==> Connections(t, e.ip) < l.maxConcurrent
    ensures |t'| <= Max(|t|, Max(l.maxTracked, |Active(t)| + 1))
  {
    match e
    case Request(ip, now, granted) => RequestKeeps(l, t, ip, now, granted, t');
    case Connect(ip, now, granted) => ConnectKeeps(l, t, ip, now, granted, t');
    case Disconnect(ip) =>
      if Connections(t, ip) > 0 {
        UpdateKeepsSize(t, ip, t'[ip]);
        UpdateCounts(t, ip, t'[ip]);
      }
  }

  lemma RequestKeeps(l: Limits, t: Table, ip: Ip, now: real, granted: bool, t': Table)
    requires Next(l, t, Request(ip, now, granted), t')
    ensures SameCounts(t, t') && |t'| <= Max(|t|, Max(l.maxTracked, |Active(t)| + 1))
  {
    var u: Table :| Looked(l, t, ip, now, u) && ip in u
      && t' == u[ip := u[ip].(bucket := Take(u[ip].bucket, Call(now, 1.0)))];
    LookedKeeps(l, t, ip, now, u);
    UpdateKeepsSize(u, ip, t'[ip]);
    UpdateCounts(u, ip, t'[ip]);
    CountsTrans(t, u, t');
  }

  lemma ConnectKeeps(l: Limits, t: Table, ip: Ip, now: real, granted: bool, t': Table)
    requires Next(l, t, Connect(ip, now, granted), t')
    ensures forall x :: Connections(t', x) == Connections(t, x) + if x == ip && granted then 1 else 0
    ensures granted ==> Connections(t, ip) < l.maxConcurrent
    ensures |t'| <= Max(|t|, Max(l.maxTracked, |Active(t)| + 1))
  {
    var u: Table :| Looked(l, t, ip, now, u) && ip in u && granted == (u[ip].connections < l.maxConcurrent)
      && t' == if granted then u[ip := u[ip].(connections := u[ip].connections + 1)] else u;
    LookedKeeps(l, t, ip, now, u);
    UpdateKeepsSize(u, ip, t'[ip]);
    UpdateCounts(u, ip, t'[ip]);
    assert Connections(u, ip) == Connections(t, ip);
  }

  lemma UpdateCounts(t: Table, ip: Ip, e: Entry)
    requires ip in t
    ensures forall x: Ip :: Connections(t[ip := e], x) == if x == ip then e.connections else Connections(t, x)
  {
    forall x: Ip ensures Connections(t[ip := e], x) == if x == ip then e.connections else Connections(t, x) {
      assert x in t[ip := e] <==> x in t;
    }
  }

  // ---------------------------------------------------------------- whole runs

  ghost predicate Run(l: Limits, ts: seq<Table>, es: seq<Event>)
  {
    && |ts| == |es| + 1 && ts[0] == map[]
    && forall k :: 0 <= k < |es| ==> Next(l, ts[k], es[k], ts[k + 1])
  }

  /** Granted connects minus effective disconnects of one address. */
  function Balance(l: Limits, ts: seq<Table>, es: seq<Event>, ip: Ip, k: nat): int
    requires k <= |es| && |ts| == |es| + 1
  {
    if k == 0 then 0 else Balance(l, ts, es, ip, k - 1) + Effect(l, ts[k - 1], es[k - 1], ip)
  }

  /** The most addresses that ever had a connection open at once, up to state `k`. */
  function Peak(ts: seq<Table>, k: nat): nat
    requires k < |ts|
  {
    if k == 0 then |Active(ts[0])| else Max(Peak(ts, k - 1), |Active(ts[k])|)
  }

  /** In every state of every run each counter is exactly the balance of its address, and within the
      limit. */
  lemma {:induction false} CountersAreExact(l: Limits, ts: seq<Table>, es: seq<Event>, k: nat, ip: Ip)
    requires l.maxConcurrent >= 0 && Run(l, ts, es) && k < |ts|
    ensures Connections(ts[k], ip) == Balance(l, ts, es, ip, k) <= l.maxConcurrent
  {
    if k > 0 {
      CountersAreExact(l, ts, es, k - 1, ip);
      NextKeeps(l, ts[k - 1], es[k - 1], ts[k]);
    }
  }

  /** Step `k` grows the table only below the cap or while every entry is in use. */
  predicate GrowsWithNeed(ts: seq<Table>, cap: int, k: nat)
    requires k + 1 < |ts|
  {
    |ts[k + 1]| <= Max(|ts[k]|, Max(cap, |Active(ts[k])| + 1))
  }

  lemma {:induction false} SmallBySteps(ts: seq<Table>, cap: int, k: nat)
    requires k < |ts| && |ts[0]| == 0
    requires forall j: nat :: j + 1 < |ts| ==> GrowsWithNeed(ts, cap, j)
    ensures |ts[k]| <= Max(cap, Peak(ts, k) + 1) && |Active(ts[k])| <= Peak(ts, k)
  {
    if k > 0 {
      SmallBySteps(ts, cap, k - 1);
      assert GrowsWithNeed(ts, cap, k - 1);
    }
  }

  /** The table never exceeds the cap, or one more than the peak number of active addresses. */
  lemma TableStaysSmall(l: Limits, ts: seq<Table>, es: seq<Event>, k: nat)
    requires l.maxConcurrent >= 0 && Run(l, ts, es) && k < |ts|
    ensures |ts[k]| <= Max(l.maxTracked, Peak(ts, k) + 1)
  {
    forall j: nat | j + 1 < |ts| ensures GrowsWithNeed(ts, l.maxTracked, j) {
      NextKeeps(l, ts[j], es[j], ts[j + 1]);
    }
    SmallBySteps(ts, l.maxTracked, k);
  }

  /** Between lookups an address with an open connection is never dropped. */
  lemma OpenConnectionIsKept(l: Limits, t: Table, e: Event, t': Table, ip: Ip)
    requires l.maxConcurrent >= 0 && Next(l, t, e, t') && Connections(t, ip) > 0
    ensures ip in t'
    ensures e != Disconnect(ip) ==> Connections(t', ip) >= Connections(t, ip)
  {
    NextKeeps(l, t, e, t');
  }

  /** The requests of one address among some events, as calls on its bucket. */
  function CallsOf(es: seq<Event>, ip: Ip): seq<Call>
  {
    if es == [] then []
    else
      var e := es[|es| - 1];
      CallsOf(es[..|es| - 1], ip) + if e.Request? && e.ip == ip then [Call(e.now, 1.0)] else []
  }

  lemma BucketStep(l: Limits, t: Table, e: Event, t': Table, ip: Ip)
    requires Next(l, t, e, t') && ip in t && ip in t'
    ensures t'[ip].bucket == if e.Request? && e.ip == ip then Take(t[ip].bucket, Call(e.now, 1.0)) else t[ip].bucket
    ensures e.Request? && e.ip == ip ==> (e.granted <==> Grants(t[ip].bucket, Call(e.now, 1.0)))
  {
  }

  /** As long as an address is kept, its bucket has seen exactly its own requests, so `WindowBound`
      holds for them. */
  lemma {:induction false} KeptBucketSeesItsCalls(l: Limits, ts: seq<Table>, es: seq<Event>, ip: Ip, k: nat)
    requires |ts| == |es| + 1 && k <= |es|
    requires forall m :: 0 <= m < |es| ==> Next(l, ts[m], es[m], ts[m + 1])
    requires forall m :: 0 <= m < |ts| ==> ip in ts[m]
    ensures ts[k][ip].bucket == After(ts[0][ip].bucket, CallsOf(es[..k], ip))
  {
    if k > 0 {
      KeptBucketSeesItsCalls(l, ts, es, ip, k - 1);
      BucketStep(l, ts[k - 1], es[k - 1], ts[k], ip);
      var calls := CallsOf(es[..k - 1], ip);
      assert es[..k][..k - 1] == es[..k - 1];
      if es[k - 1].Request? && es[k - 1].ip == ip {
        var c := Call(es[k - 1].now, 1.0);
        assert (calls + [c])[..|calls|] == calls;
      } else {
        assert calls + [] == calls;
      }
    }
  }

  // ---------------------------------------------------------------- the window of one address

  predicate InTime(es: seq<Event>) {
    forall a, b :: 0 <= a < b < |es| && !es[a].Disconnect? && !es[b].Disconnect? ==> es[a].now <= es[b].now
  }

  /** How many of the address's requests were granted. */
  function GrantCount(es: seq<Event>, ip: Ip): nat
  {
    if es == [] then 0
    else
      var e := es[|es| - 1];
      GrantCount(es[..|es| - 1], ip) + if e.Request? && e.ip == ip && e.granted then 1 else 0
  }

  /** The bucket is the guard's own and no later event lies before its last use. */
  ghost predicate Used(l: Limits, b: Bucket, es: seq<Event>, k: nat)
  {
    && Sound(b) && b.rate == l.rate && b.burst == l.burst
    && forall m :: k <= m < |es| && !es[m].Disconnect? ==> b.stamp <= es[m].now
  }

  /** The bucket of an address before an event, or a fresh one if the event brings the address in. */
  function BucketBefore(l: Limits, t: Table, ip: Ip, now: real): Bucket {
    if ip in t then t[ip].bucket else FreshEntry(l, now).bucket
  }

  /** An event takes the address's own request from that bucket, and nothing else touches it. */
  lemma BucketAfter(l: Limits, t: Table, e: Event, t': Table, ip: Ip)
    requires Next(l, t, e, t') && ip in t'
    ensures ip !in t ==> !e.Disconnect? && e.ip == ip
    ensures e.Disconnect? ==> ip in t && t'[ip].bucket == t[ip].bucket
    ensures !e.Disconnect? ==>
              t'[ip].bucket == if e.Request? && e.ip == ip then Take(BucketBefore(l, t, ip, e.now), Call(e.now, 1.0))
                               else BucketBefore(l, t, ip, e.now)
  {
    match e
    case Request(other, now, granted) => BucketAfterRequest(l, t, other, now, granted, t', ip);
    case Connect(other, now, granted) => BucketAfterConnect(l, t, other, now, granted, t', ip);
    case Disconnect(_) =>
  }

  lemma BucketAfterRequest(l: Limits, t: Table, other: Ip, now: real, granted: bool, t': Table, ip: Ip)
    requires Next(l, t, Request(other, now, granted), t') && ip in t'
    ensures ip !in t ==> ip == other
    ensures var b := BucketBefore(l, t, ip, now);
            t'[ip].bucket == if ip == other then Take(b, Call(now, 1.0)) else b
  {
    var u: Table :| Looked(l, t, other, now, u) && other in u
      && t' == u[other := u[other].(bucket := Take(u[other].bucket, Call(now, 1.0)))];
    BucketLookedUp(l, t, other, now, u, ip);
  }

  lemma BucketAfterConnect(l: Limits, t: Table, other: Ip, now: real, granted: bool, t': Table, ip: Ip)
    requires Next(l, t, Connect(other, now, granted), t') && ip in t'
    ensures ip !in t ==> ip == other
    ensures t'[ip].bucket == BucketBefore(l, t, ip, now)
  {
    var u: Table :| Looked(l, t, other, now, u) && other in u
      && t' == if granted then u[other := u[other].(connections := u[other].connections + 1)] else u;
    BucketLookedUp(l, t, other, now, u, ip);
  }

  lemma BucketLookedUp(l: Limits, t: Table, other: Ip, now: real, u: Table, ip: Ip)
    requires Looked(l, t, other, now, u) && ip in u
    ensures if ip in t then u[ip].bucket == t[ip].bucket
            else ip == other && u[ip].bucket == FreshEntry(l, now).bucket
  {
  }

  lemma UsedAfter(l: Limits, b: Bucket, es: seq<Event>, k: nat)
    requires k < |es| && InTime(es) && Used(l, b, es, k) && es[k].Request?
    ensures Used(l, Take(b, Call(es[k].now, 1.0)), es, k + 1)
  {
    TakeSound(b, Call(es[k].now, 1.0));
  }

  lemma UsedLater(l: Limits, b: Bucket, es: seq<Event>, k: nat)
    requires Used(l, b, es, k)
    ensures Used(l, b, es, k + 1)
  {
  }

  lemma FreshIsUsed(l: Limits, es: seq<Event>, k: nat)
    requires l.rate >= 0.0 && l.burst >= 0.0 && k < |es| && InTime(es) && !es[k].Disconnect?
    ensures Used(l, FreshEntry(l, es[k].now).bucket, es, k)
  {
  }

  /** One event keeps the buckets in use, a bucket that it brings in included. */
  lemma UsedStep(l: Limits, t: Table, t': Table, es: seq<Event>, k: nat, ip: Ip)
    requires l.rate >= 0.0 && l.burst >= 0.0 && k < |es| && InTime(es) && Next(l, t, es[k], t') && ip in t'
    requires ip in t ==> Used(l, t[ip].bucket, es, k)
    ensures Used(l, t'[ip].bucket, es, k + 1)
  {
    var e := es[k];
    BucketAfter(l, t, e, t', ip);
    if e.Disconnect? {
      UsedLater(l, t[ip].bucket, es, k);
    } else {
      var b := BucketBefore(l, t, ip, e.now);
      FreshIsUsed(l, es, k);
      UsedLater(l, b, es, k);
      if e.Request? {
        UsedAfter(l, b, es, k);
      }
    }
  }

  lemma {:induction false} BucketsAreUsed(l: Limits, ts: seq<Table>, es: seq<Event>, k: nat, ip: Ip)
    requires l.rate >= 0.0 && l.burst >= 0.0 && Run(l, ts, es) && InTime(es) && k < |ts| && ip in ts[k]
    ensures Used(l, ts[k][ip].bucket, es, k)
  {
    if k > 0 {
      if ip in ts[k - 1] {
        BucketsAreUsed(l, ts, es, k - 1, ip);
      }
      UsedStep(l, ts[k - 1], ts[k], es, k - 1, ip);
    }
  }

  lemma {:induction false} CallsInOrder(es: seq<Event>, ip: Ip, start: real)
    requires InTime(es) && forall m :: 0 <= m < |es| && !es[m].Disconnect? ==> start <= es[m].now
    ensures InOrder(start, CallsOf(es, ip))
    ensures forall c :: c in CallsOf(es, ip) ==> exists m :: 0 <= m < |es| && !es[m].Disconnect? && c.now == es[m].now
  {
    if es != [] {
      var k := |es| - 1;
      CallsInOrder(es[..k], ip, start);
      forall c | c in CallsOf(es[..k], ip)
        ensures exists m :: 0 <= m < k && !es[m].Disconnect? && c.now == es[m].now
      {
        var m :| 0 <= m < k && !es[..k][m].Disconnect? && c.now == es[..k][m].now;
        assert es[..k][m] == es[m];
      }
      if es[k].Request? && es[k].ip == ip {
        LastInOrder(start, CallsOf(es[..k], ip), Call(es[k].now, 1.0));
      }
    }
  }

  lemma LastInOrder(start: real, cs: seq<Call>, c: Call)
    requires InOrder(start, cs) && start <= c.now && c.amount >= 0.0 && forall d :: d in cs ==> d.now <= c.now
    ensures InOrder(start, cs + [c])
  {
    forall i | 0 <= i < |cs| ensures cs[i].now <= c.now {
      assert cs[i] in cs;
    }
  }

  /** While an address is kept, the tokens granted by its bucket are its granted requests. */
  lemma {:induction false} GrantsAreCounted(l: Limits, ts: seq<Table>, es: seq<Event>, ip: Ip, k: nat)
    requires |ts| == |es| + 1 && k <= |es|
    requires forall m :: 0 <= m < |es| ==> Next(l, ts[m], es[m], ts[m + 1])
    requires forall m :: 0 <= m < |ts| ==> ip in ts[m]
    ensures Granted(ts[0][ip].bucket, CallsOf(es[..k], ip)) == GrantCount(es[..k], ip) as real
  {
    if k > 0 {
      GrantsAreCounted(l, ts, es, ip, k - 1);
      KeptBucketSeesItsCalls(l, ts, es, ip, k - 1);
      BucketStep(l, ts[k - 1], es[k - 1], ts[k], ip);
      var calls := CallsOf(es[..k - 1], ip);
      assert es[..k][..k - 1] == es[..k - 1];
      if es[k - 1].Request? && es[k - 1].ip == ip {
        var c := Call(es[k - 1].now, 1.0);
        assert (calls + [c])[..|calls|] == calls;
      } else {
        assert calls + [] == calls;
      }
    }
  }

  /** In any stretch of any run over which an address is kept, the requests granted to it are at most the
      burst plus what flows in between its first and its last request. */
  lemma KeptWindowBound(l: Limits, ts: seq<Table>, es: seq<Event>, ip: Ip, i: nat, j: nat)
    requires l.rate >= 0.0 && l.burst >= 0.0 && Run(l, ts, es) && InTime(es) && i <= j <= |es|
    requires forall m :: i <= m <= j ==> ip in ts[m]
    ensures var calls := CallsOf(es[i..j], ip);
            if calls == [] then GrantCount(es[i..j], ip) == 0
            else GrantCount(es[i..j], ip) as real <= l.burst + Inflow(calls[|calls| - 1].now - calls[0].now, l.rate)
  {
    GrantsOfWindow(l, ts, es, ip, i, j);
    BucketsAreUsed(l, ts, es, i, ip);
    WindowOfBucket(l, ts[i][ip].bucket, es, ip, i, j);
  }

  lemma GrantsOfWindow(l: Limits, ts: seq<Table>, es: seq<Event>, ip: Ip, i: nat, j: nat)
    requires Run(l, ts, es) && i <= j <= |es|
    requires forall m :: i <= m <= j ==> ip in ts[m]
    ensures Granted(ts[i][ip].bucket, CallsOf(es[i..j], ip)) == GrantCount(es[i..j], ip) as real
  {
    var window, tables := es[i..j], ts[i..j + 1];
    assert window[..|window|] == window && tables[0] == ts[i];
    WindowSteps(l, ts, es, i, j);
    GrantsAreCounted(l, tables, window, ip, |window|);
  }

  lemma WindowOfBucket(l: Limits, b: Bucket, es: seq<Event>, ip: Ip, i: nat, j: nat)
    requires InTime(es) && i <= j <= |es| && Used(l, b, es, i)
    requires Granted(b, CallsOf(es[i..j], ip)) == GrantCount(es[i..j], ip) as real
    ensures var calls := CallsOf(es[i..j], ip);
            if calls == [] then GrantCount(es[i..j], ip) == 0
            else GrantCount(es[i..j], ip) as real <= l.burst + Inflow(calls[|calls| - 1].now - calls[0].now, l.rate)
  {
    CallsOfWindow(l, b, es, ip, i, j);
    var calls := CallsOf(es[i..j], ip);
    if calls != [] {
      WindowAlone(b, calls);
    }
  }

  lemma CallsOfWindow(l: Limits, b: Bucket, es: seq<Event>, ip: Ip, i: nat, j: nat)
    requires InTime(es) && i <= j <= |es| && Used(l, b, es, i)
    ensures Sound(b) && b.rate == l.rate && b.burst == l.burst && InOrder(b.stamp, CallsOf(es[i..j], ip))
  {
    WindowInTime(es, i, j);
    CallsInOrder(es[i..j], ip, b.stamp);
  }

  lemma WindowSteps(l: Limits, ts: seq<Table>, es: seq<Event>, i: nat, j: nat)
    requires Run(l, ts, es) && i <= j <= |es|
    ensures forall m :: 0 <= m < j - i ==> Next(l, ts[i..j + 1][m], es[i..j][m], ts[i..j + 1][m + 1])
  {
    forall m | 0 <= m < j - i ensures Next(l, ts[i..j + 1][m], es[i..j][m], ts[i..j + 1][m + 1]) {
      assert Next(l, ts[i + m], es[i + m], ts[i + m + 1]);
    }
  }

  lemma WindowInTime(es: seq<Event>, i: nat, j: nat)
    requires InTime(es) && i <= j <= |es|
    ensures InTime(es[i..j])
  {
  }

  // ---------------------------------------------------------------- the object

  ghost predicate IsOldest(t: Table, idle: set<Ip>, x: Ip)
    requires idle <= t.Keys
  {
    x in idle && forall y :: y in idle && y != x ==> Before(t, x, y)
  }

  lemma {:induction false} OldestExists(t: Table, idle: set<Ip>) returns (x: Ip)
    requires idle != {} && idle <= t.Keys
    ensures IsOldest(t, idle, x)
    decreases |idle|
  {
    var y :| y in idle;
    if idle == {y} {
      x := y;
    } else {
      x := OldestExists(t, idle - {y});
      if !Before(t, x, y) {
        forall z | z in idle && z != y ensures Before(t, y, z) {
          assert z == x || Before(t, x, z);
        }
        x := y;
      }
    }
  }

  lemma StillSome(all: set<Ip>, gone: set<Ip>)
    requires gone <= all && |gone| < |all|
    ensures all - gone != {}
  {
    assert |all - gone| == |all| - |gone|;
  }

  class IPGuard {
    const limits: Limits
    var ips: Table

    constructor (limits: Limits)
      ensures this.limits == limits && ips == map[]
    {
      this.limits := limits;
      ips := map[];
    }

    method Oldest(idle: set<Ip>) returns (x: Ip)
      requires idle != {} && idle <= ips.Keys
      ensures IsOldest(ips, idle, x)
    {
      ghost var some := OldestExists(ips, idle);
      assert some in idle && forall y :: y in idle && y != some ==> Before(ips, some, y);
      x :| x in idle && forall y :: y in idle && y != x ==> Before(ips, x, y);
    }

    method Evict()
      modifies this
      ensures Evicted(old(ips), ips)
    {
      var idle := Idle(ips);
      var drop := EvictCount(|idle|);
      ghost var before, all, gone: set<Ip> := ips, idle, {};
      for i := 0 to drop
        invariant ips == before - gone && idle == all - gone && gone <= all && |gone| == i
        invariant forall x, y :: x in gone && y in idle ==> Before(before, x, y)
      {
        StillSome(all, gone);
        var x := Oldest(idle);
        forall y | y in idle && y != x ensures Before(before, x, y) {
          assert Before(ips, x, y);
        }
        gone := gone + {x};
        ips := ips - {x};
        idle := idle - {x};
      }
      assert before.Keys - ips.Keys == gone;
    }

    method StateOf(ip: Ip, now: real)
      modifies this
      ensures Looked(limits, old(ips), ip, now, ips) && ip in ips
    {
      if ip !in ips {
        if |ips| >= limits.maxTracked {
          Evict();
        }
        ghost var room := ips;
        assert MadeRoom(limits, old(ips), room);
        ips := ips[ip := FreshEntry(limits, now)];
        assert ips[ip := ips[ip].(lastSeen := now)] == ips;
      }
      ips := ips[ip := ips[ip].(lastSeen := now)];
    }

    method AllowRequest(ip: Ip, now: real) returns (granted: bool)
      modifies this
      ensures Next(limits, old(ips), Request(ip, now, granted), ips)
    {
      StateOf(ip, now);
      var e := ips[ip];
      granted := Grants(e.bucket, Call(now, 1.0));
      ips := ips[ip := e.(bucket := Take(e.bucket, Call(now, 1.0)))];
    }

    method TryConnect(ip: Ip, now: real) returns (granted: bool)
      modifies this
      ensures Next(limits, old(ips), Connect(ip, now, granted), ips)
    {
      StateOf(ip, now);
      if ips[ip].connections >= limits.maxConcurrent {
        return false;
      }
      ips := ips[ip := ips[ip].(connections := ips[ip].connections + 1)];
      return true;
    }

    method Release(ip: Ip)
      modifies this
      ensures Next(limits, old(ips), Disconnect(ip), ips)
    {
      if ip in ips && ips[ip].connections > 0 {
        ips := ips[ip := ips[ip].(connections := ips[ip].connections - 1)];
      }
    }
  }
}
