/** The request rate limiter (apps/flask_api/flask_app.py): one token bucket per client and path
    group, over exact reals. The monotonic clock is a parameter of every call. */
module RateLimit {
  import opened Prelude

  datatype Bucket = Bucket(capacity: real, tokens: real, fillRate: real, last: real)

  function MinR(a: real, b: real): real {
    if a <= b then a else b
  }

  function MaxR(a: real, b: real): real {
    if a <= b then b else a
  }

  /** The bucket at time `now`, before anything is taken. */
  function Refilled(b: Bucket, now: real): Bucket {
    b.(last := now, tokens := MinR(b.capacity, b.tokens + MaxR(0.0, now - b.last) * b.fillRate))
  }

  function Take(b: Bucket, now: real, cost: real): (Bucket, bool) {
    var r := Refilled(b, now);
    if r.tokens >= cost then (r.(tokens := r.tokens - cost), true) else (r, false)
  }

  class TokenBucket {
    var capacity: real
    var tokens: real
    var fillRate: real
    var last: real

    function View(): Bucket
      reads this
    {
      Bucket(capacity, tokens, fillRate, last)
    }

    constructor (capacity: real, fillRate: real, now: real)
      ensures View() == Bucket(capacity, capacity, fillRate, now)
    {
      this.capacity, tokens, this.fillRate, last := capacity, capacity, fillRate, now;
    }

    method Allow(now: real, cost: real) returns (allowed: bool)
      modifies this
      ensures (View(), allowed) == Take(old(View()), now, cost)
    {
      ghost var refilled := Refilled(View(), now);
      var elapsed := MaxR(0.0, now - last);
      last := now;
      tokens := MinR(capacity, tokens + elapsed * fillRate);
      assert View() == refilled;
      hide Refilled, MinR, MaxR;
      if tokens >= cost {
        tokens := tokens - cost;
        return true;
      }
      allowed := false;
    }
  }

  // ---------- The limiter ----------

  /** The configured rate and burst; absent or non-positive rates switch the limiter off. */
  datatype Settings = Settings(rps: Option<real>, burst: Option<real>)

  datatype Limits = Off | Limits(rps: real, burst: real)

  function LimitsOf(s: Settings): (l: Limits)
    ensures l.Limits? ==> l.rps > 0.0
    ensures l == Off <==> s.rps.None? || s.rps.value <= 0.0
    ensures l.Limits? && s.burst.None? ==> l.burst >= 10.0 && l.burst >= 2.0 * l.rps
  {
    if s.rps.None? || s.rps.value <= 0.0 then Off
    else Limits(s.rps.value, if s.burst.Some? then s.burst.value else MaxR(10.0, s.rps.value * 2.0))
  }

  datatype Request = Request(path: string, key: string, now: real)

  predicate Limited(l: Limits, path: string) {
    l.Limits? && "/api/" <= path && path != "/api/health/db"
  }

  type Buckets = map<string, Bucket>

  /** The bucket that serves the request; a new one is full. */
  function BucketFor(t: Buckets, l: Limits, r: Request): Bucket
    requires l.Limits?
  {
    if r.key in t then t[r.key] else Bucket(l.burst, l.burst, l.rps, r.now)
  }

  /** The buckets after one request, and whether it is let through. */
  function Serve(t: Buckets, l: Limits, r: Request): (Buckets, bool) {
    if !Limited(l, r.path) then (t, true)
    else
      var (b, allowed) := Take(BucketFor(t, l, r), r.now, 1.0);
      (t[r.key := b], allowed)
  }

  class RateLimiter {
    const limits: Limits
    var buckets: map<string, TokenBucket>

    ghost predicate Valid()
      reads this
    {
      forall k, j :: k in buckets && j in buckets && k != j ==> buckets[k] != buckets[j]
    }

    ghost function View(): Buckets
      reads this, buckets.Values
    {
      map k | k in buckets :: buckets[k].View()
    }

    constructor (settings: Settings)
      ensures Valid() && View() == map[] && limits == LimitsOf(settings)
    {
      limits := LimitsOf(settings);
      buckets := map[];
    }

    /** False stands for the 429 answer. */
    method EnforceRateLimit(r: Request) returns (allowed: bool)
      requires Valid()
      modifies this, buckets.Values
      ensures Valid() && (View(), allowed) == Serve(old(View()), limits, r)
    {
      if !Limited(limits, r.path) {
        return true;
      }
      var bucket: TokenBucket;
      if r.key in buckets {
        bucket := buckets[r.key];
      } else {
        bucket := new TokenBucket(limits.burst, limits.rps, r.now);
        buckets := buckets[r.key := bucket];
      }
      allowed := bucket.Allow(r.now, 1.0);
      assert View() == Serve(old(View()), limits, r).0;
    }
  }

  // ---------- The rate bound of one bucket ----------

  datatype Call = Call(now: real, cost: real)

  /** Calls of non-negative cost, on a clock that does not run backwards from `from`. */
  ghost predicate InOrder(calls: seq<Call>, from: real)
    decreases |calls|
  {
    calls == [] || (from <= calls[0].now && calls[0].cost >= 0.0 && InOrder(calls[1..], calls[0].now))
  }

  /** The cost admitted at times between `t1` and `t2`. */
  function Admitted(b: Bucket, calls: seq<Call>, t1: real, t2: real): real
    decreases |calls|
  {
    if calls == [] then 0.0
    else
      var c := calls[0];
      var (b', allowed) := Take(b, c.now, c.cost);
      (if allowed && t1 <= c.now <= t2 then c.cost else 0.0) + Admitted(b', calls[1..], t1, t2)
  }

  lemma AdmittedStep(b: Bucket, calls: seq<Call>, t1: real, t2: real)
    ensures calls == [] ==> Admitted(b, calls, t1, t2) == 0.0
    ensures calls != [] ==>
      var (b', allowed) := Take(b, calls[0].now, calls[0].cost);
      var paid := if allowed && t1 <= calls[0].now <= t2 then calls[0].cost else 0.0;
      Admitted(b, calls, t1, t2) == paid + Admitted(b', calls[1..], t1, t2)
  {
  }

  lemma {:induction false} NothingAfter(b: Bucket, calls: seq<Call>, t1: real, t2: real)
    requires InOrder(calls, b.last) && t2 < b.last
    ensures Admitted(b, calls, t1, t2) == 0.0
    decreases |calls|
  {
    if calls != [] {
      NothingAfter(Take(b, calls[0].now, calls[0].cost).0, calls[1..], t1, t2);
    }
  }

  /** What flows in between the last refill and `t`. */
  function Inflow(b: Bucket, t: real): real {
    (t - b.last) * b.fillRate
  }

  /** One call moves the tokens from the bucket to the caller and loses none that it needs. */
  lemma TakeFacts(b: Bucket, now: real, cost: real, t: real)
    requires b.last <= now <= t && b.fillRate >= 0.0 && cost >= 0.0
    ensures var (b', allowed) := Take(b, now, cost);
      var paid := if allowed then cost else 0.0;
      && b'.last == now && b'.fillRate == b.fillRate && b'.capacity == b.capacity
      && 0.0 <= Inflow(b', t) <= Inflow(b, t)
      && paid + b'.tokens <= b.capacity
      && paid + b'.tokens + Inflow(b', t) <= b.tokens + Inflow(b, t)
      && (allowed ==> b'.tokens >= 0.0)
  {
    assert (t - b.last) * b.fillRate == (t - now) * b.fillRate + (now - b.last) * b.fillRate;
    assert (t - now) * b.fillRate >= 0.0;
    assert (now - b.last) * b.fillRate >= 0.0;
  }

  /** Once inside the window, at most the tokens held and those still to flow in are admitted. */
  lemma {:induction false} AdmittedInside(b: Bucket, calls: seq<Call>, t1: real, t2: real)
    requires InOrder(calls, b.last) && b.fillRate >= 0.0 && t1 <= b.last <= t2
    ensures Admitted(b, calls, t1, t2) <= MaxR(0.0, b.tokens + Inflow(b, t2))
    decreases |calls|
  {
    hide Take, Inflow;
    if calls != [] {
      var c := calls[0];
      var (b', allowed) := Take(b, c.now, c.cost);
      if c.now <= t2 {
        TakeFacts(b, c.now, c.cost, t2);
        AdmittedInside(b', calls[1..], t1, t2);
      } else {
        TakeFacts(b, c.now, c.cost, c.now);
        NothingAfter(b', calls[1..], t1, t2);
      }
    }
  }

  /** The rate bound: over any window the admitted cost is at most the capacity plus what the fill
      rate supplies during the window. */
  lemma {:induction false} RateBound(b: Bucket, calls: seq<Call>, t1: real, t2: real)
    requires InOrder(calls, b.last) && b.fillRate >= 0.0 && t1 <= t2
    ensures Admitted(b, calls, t1, t2) <= MaxR(0.0, b.capacity) + (t2 - t1) * b.fillRate
    decreases |calls|
  {
    hide Take, Inflow, Admitted;
    WindowInflow(b.fillRate, t1, t1, t2);
    AdmittedStep(b, calls, t1, t2);
    if calls != [] {
      var c := calls[0];
      var (b', allowed) := Take(b, c.now, c.cost);
      if c.now < t1 {
        TakeFacts(b, c.now, c.cost, t1);
        RateBound(b', calls[1..], t1, t2);
      } else if c.now <= t2 {
        TakeFacts(b, c.now, c.cost, t2);
        AdmittedInside(b', calls[1..], t1, t2);
        WindowInflow(b.fillRate, t1, c.now, t2);
        InflowIs(b', c.now, b.fillRate, t2);
        assert Inflow(b', t2) <= (t2 - t1) * b.fillRate;
      } else {
        TakeFacts(b, c.now, c.cost, c.now);
        NothingAfter(b', calls[1..], t1, t2);
      }
    }
  }

  lemma InflowIs(b: Bucket, last: real, rate: real, t: real)
    requires b.last == last && b.fillRate == rate
    ensures Inflow(b, t) == (t - last) * rate
  {
  }

  lemma WindowInflow(rate: real, t1: real, t: real, t2: real)
    requires rate >= 0.0 && t1 <= t <= t2
    ensures 0.0 <= (t2 - t) * rate <= (t2 - t1) * rate
  {
    assert (t2 - t1) * rate == (t2 - t) * rate + (t - t1) * rate;
  }

  /** A call that the bucket can ever pay is admitted after an idle time of cost / fill rate. */
  lemma IdleCallIsAdmitted(b: Bucket, now: real, cost: real)
    requires b.tokens >= 0.0 && b.fillRate > 0.0 && cost >= 0.0 && now - b.last >= cost / b.fillRate
    ensures Take(b, now, cost).1 <==> cost <= b.capacity
  {
    var idle := cost / b.fillRate;
    assert b.fillRate * idle == cost;
    Sign(b.fillRate, idle);
    Sign(b.fillRate, now - b.last - idle);
    assert (now - b.last) * b.fillRate == b.fillRate * idle + b.fillRate * (now - b.last - idle);
  }

  lemma Sign(a: real, b: real)
    requires a > 0.0
    ensures b >= 0.0 <==> a * b >= 0.0
  {
  }

  /** A call is admitted exactly when its cost is within both the capacity and the tokens that have come
      together by then; what it pays and what stays make up that level, or the capacity if it is
      less. A clock that runs backwards brings no tokens. */
  lemma TakeExactly(b: Bucket, now: real, cost: real)
    ensures var (b', allowed) := Take(b, now, cost);
      var level := if now <= b.last then b.tokens else b.tokens + (now - b.last) * b.fillRate;
      && (allowed <==> cost <= level && cost <= b.capacity)
      && b'.tokens + (if allowed then cost else 0.0) == (if level > b.capacity then b.capacity else level)
      && b'.last == now && b'.capacity == b.capacity && b'.fillRate == b.fillRate
  {
  }

  /** `n` calls of cost 1 at one moment. */
  function Volley(n: nat, now: real): seq<Call> {
    if n == 0 then [] else [Call(now, 1.0)] + Volley(n - 1, now)
  }

  /** Of any number of calls at one moment exactly the whole tokens are admitted, so a full bucket serves
      a burst of its capacity and not one call more. */
  lemma {:induction false} VolleyIsServed(b: Bucket, n: nat, now: real)
    requires b.last == now && b.tokens <= b.capacity
    ensures InOrder(Volley(n, now), now)
    ensures Admitted(b, Volley(n, now), now, now) == Min(n, Max(0, b.tokens.Floor)) as real
    decreases n
  {
    hide Take, Admitted;
    AdmittedStep(b, Volley(n, now), now, now);
    if n > 0 {
      var calls := Volley(n, now);
      assert calls[0] == Call(now, 1.0) && calls[1..] == Volley(n - 1, now);
      TakeExactly(b, now, 1.0);
      VolleyIsServed(Take(b, now, 1.0).0, n - 1, now);
      assert b.tokens >= 1.0 <==> b.tokens.Floor >= 1;
      assert (b.tokens - 1.0).Floor == b.tokens.Floor - 1;
    }
  }

  // ---------- Which requests are limited, and how ----------

  /** No positive rate switches the limiter off; else the rate is as configured, and so is the burst, which
      without a setting is twice the rate but at least 10. */
  lemma LimitsExactly(rps: Option<real>, burst: Option<real>)
    ensures var l := LimitsOf(Settings(rps, burst));
      && (l == Off <==> rps == None || rps.value <= 0.0)
      && (l != Off ==> Some(l.rps) == rps)
      && (l != Off && burst != None ==> Some(l.burst) == burst)
      && (l != Off && burst == None ==> l.burst == if l.rps <= 5.0 then 10.0 else l.rps + l.rps)
  {
  }

  /** Only API paths other than the health check are limited, and only while the limiter is on. */
  predicate Subject(l: Limits, path: string) {
    l != Off && |path| >= 5 && path[..5] == "/api/" && path != "/api/health/db"
  }

  /** A request that is not limited passes and touches no bucket; a limited one is answered by the bucket of
      its key alone, which is full when it is the first. */
  lemma ServeExactly(t: Buckets, l: Limits, r: Request)
    ensures var (t', allowed) := Serve(t, l, r);
      && (!Subject(l, r.path) ==> allowed && t' == t)
      && (forall k :: k != r.key ==> SameBucket(t, t', k))
      && (Subject(l, r.path) && r.key in t ==> r.key in t' && (t'[r.key], allowed) == Take(t[r.key], r.now, 1.0))
      && (Subject(l, r.path) && r.key !in t ==>
        && (allowed <==> l.burst >= 1.0)
        && r.key in t' && t'[r.key] == Bucket(l.burst, if allowed then l.burst - 1.0 else l.burst, l.rps, r.now))
  {
    assert Limited(l, r.path) <==> Subject(l, r.path);
    hide Limited, Subject;
  }

  // ---------- Keys do not disturb each other ----------

  /** The answers to the requests of one key, in order. */
  function AnswersFor(t: Buckets, l: Limits, rs: seq<Request>, key: string): seq<bool>
    decreases |rs|
  {
    if rs == [] then []
    else
      var (t', allowed) := Serve(t, l, rs[0]);
      (if rs[0].key == key then [allowed] else []) + AnswersFor(t', l, rs[1..], key)
  }

  /** The buckets after all the requests. */
  function ServeAll(t: Buckets, l: Limits, rs: seq<Request>): Buckets
    decreases |rs|
  {
    if rs == [] then t else ServeAll(Serve(t, l, rs[0]).0, l, rs[1..])
  }

  /** One more request of the key adds the answer that the buckets then give, one of another key none. */
  lemma {:induction false} OneMoreAnswer(t: Buckets, l: Limits, rs: seq<Request>, r: Request, key: string)
    ensures AnswersFor(t, l, [], key) == []
    ensures AnswersFor(t, l, rs + [r], key) ==
      AnswersFor(t, l, rs, key) + if r.key == key then [Serve(ServeAll(t, l, rs), l, r).1] else []
    ensures ServeAll(t, l, rs + [r]) == Serve(ServeAll(t, l, rs), l, r).0
    decreases |rs|
  {
    hide Serve;
    if rs == [] {
      assert (rs + [r])[1..] == [];
    } else {
      assert (rs + [r])[1..] == rs[1..] + [r];
      OneMoreAnswer(Serve(t, l, rs[0]).0, l, rs[1..], r, key);
    }
  }

  function RequestsOf(rs: seq<Request>, key: string): seq<Request> {
    if rs == [] then []
    else (if rs[0].key == key then [rs[0]] else []) + RequestsOf(rs[1..], key)
  }

  ghost predicate SameBucket(t: Buckets, u: Buckets, key: string) {
    (key in t <==> key in u) && (key in t ==> t[key] == u[key])
  }

  /** The answers to one key are the same when every other request is left out. */
  lemma {:induction false} KeysAreIndependent(t: Buckets, u: Buckets, l: Limits, rs: seq<Request>, key: string)
    requires SameBucket(t, u, key)
    ensures AnswersFor(t, l, rs, key) == AnswersFor(u, l, RequestsOf(rs, key), key)
    decreases |rs|
  {
    hide Take, Limited;
    if rs != [] {
      var r, rest := rs[0], RequestsOf(rs[1..], key);
      if r.key == key {
        assert RequestsOf(rs, key)[1..] == rest;
        KeysAreIndependent(Serve(t, l, r).0, Serve(u, l, r).0, l, rs[1..], key);
      } else {
        assert RequestsOf(rs, key) == rest;
        KeysAreIndependent(Serve(t, l, r).0, u, l, rs[1..], key);
      }
    }
  }

  // ---------- The rate bound of one client ----------

  /** How many requests of `key` subject to the limit are let through between `t1` and `t2`. */
  function LetThrough(t: Buckets, l: Limits, rs: seq<Request>, key: string, t1: real, t2: real): nat
    decreases |rs|
  {
    if rs == [] then 0
    else
      var (t', allowed) := Serve(t, l, rs[0]);
      (if rs[0].key == key && Limited(l, rs[0].path) && allowed && t1 <= rs[0].now <= t2 then 1 else 0)
      + LetThrough(t', l, rs[1..], key, t1, t2)
  }

  ghost predicate ClockRuns(rs: seq<Request>, from: real)
    decreases |rs|
  {
    rs == [] || (from <= rs[0].now && ClockRuns(rs[1..], rs[0].now))
  }

  /** The calls that the bucket of `key` sees. */
  function CallsOf(l: Limits, rs: seq<Request>, key: string): seq<Call> {
    if rs == [] then []
    else (if rs[0].key == key && Limited(l, rs[0].path) then [Call(rs[0].now, 1.0)] else []) + CallsOf(l, rs[1..], key)
  }

  lemma {:induction false} CallsInOrder(l: Limits, rs: seq<Request>, key: string, from: real)
    requires ClockRuns(rs, from)
    ensures InOrder(CallsOf(l, rs, key), from)
    decreases |rs|
  {
    if rs != [] {
      CallsInOrder(l, rs[1..], key, rs[0].now);
      var calls := CallsOf(l, rs[1..], key);
      if rs[0].key == key && Limited(l, rs[0].path) {
        assert CallsOf(l, rs, key)[1..] == calls;
      } else {
        assert CallsOf(l, rs, key) == calls;
        Earlier(calls, rs[0].now, from);
      }
    }
  }

  lemma Earlier(calls: seq<Call>, from: real, before: real)
    requires InOrder(calls, from) && before <= from
    ensures InOrder(calls, before)
  {
  }

  lemma {:induction false} LetThroughIsAdmitted(t: Buckets, l: Limits, rs: seq<Request>, key: string, t1: real,
                                                t2: real)
    requires key in t
    ensures LetThrough(t, l, rs, key, t1, t2) as real == Admitted(t[key], CallsOf(l, rs, key), t1, t2)
    decreases |rs|
  {
    hide Take, Limited;
    if rs != [] {
      var r, calls := rs[0], CallsOf(l, rs[1..], key);
      LetThroughIsAdmitted(Serve(t, l, r).0, l, rs[1..], key, t1, t2);
      if r.key == key && Limited(l, r.path) {
        assert CallsOf(l, rs, key)[1..] == calls;
      } else {
        assert CallsOf(l, rs, key) == calls;
      }
    }
  }

  /** From a fresh limiter, over any requests of all clients on a running clock, one client gets
      through in a window at most the burst plus the rate times the window's length. */
  lemma {:induction false} ClientRateBound(t: Buckets, l: Limits, rs: seq<Request>, key: string, from: real, t1: real,
                                           t2: real)
    requires l.Limits? && l.rps > 0.0 && key !in t && ClockRuns(rs, from) && t1 <= t2
    ensures LetThrough(t, l, rs, key, t1, t2) as real <= MaxR(0.0, l.burst) + (t2 - t1) * l.rps
    decreases |rs|
  {
    hide Take, Limited, Admitted, CallsOf;
    WindowInflow(l.rps, t1, t1, t2);
    if rs != [] {
      var r := rs[0];
      if r.key == key && Limited(l, r.path) {
        var full := BucketFor(t, l, r);
        LetThroughIsAdmitted(t[key := full], l, rs, key, t1, t2);
        FullBucketChangesNothing(t, l, rs, t1, t2);
        CallsInOrder(l, rs, key, r.now);
        RateBound(full, CallsOf(l, rs, key), t1, t2);
      } else {
        ClientRateBound(Serve(t, l, r).0, l, rs[1..], key, r.now, t1, t2);
      }
    }
  }

  lemma FullBucketChangesNothing(t: Buckets, l: Limits, rs: seq<Request>, t1: real, t2: real)
    requires rs != [] && l.Limits? && Limited(l, rs[0].path)
    ensures LetThrough(t[rs[0].key := BucketFor(t, l, rs[0])], l, rs, rs[0].key, t1, t2) ==
      LetThrough(t, l, rs, rs[0].key, t1, t2)
  {
    hide Take, Limited;
    var r := rs[0];
    var full := BucketFor(t, l, r);
    var (b, allowed) := Take(full, r.now, 1.0);
    assert t[r.key := full][r.key := b] == t[r.key := b];
  }

  /** `n` requests of one client at one moment. */
  function Burst(n: nat, path: string, key: string, now: real): seq<Request> {
    if n == 0 then [] else [Request(path, key, now)] + Burst(n - 1, path, key, now)
  }

  lemma {:induction false} BurstCalls(l: Limits, n: nat, path: string, key: string, now: real)
    requires Limited(l, path)
    ensures CallsOf(l, Burst(n, path, key, now), key) == Volley(n, now)
    ensures ClockRuns(Burst(n, path, key, now), now)
  {
    if n > 0 {
      BurstCalls(l, n - 1, path, key, now);
      assert Burst(n, path, key, now)[1..] == Burst(n - 1, path, key, now);
    }
  }

  /** A client who has not called before gets exactly a burst of requests through at once, whatever other
      clients have done. */
  lemma ClientBurst(t: Buckets, l: Limits, n: nat, path: string, key: string, now: real)
    requires Subject(l, path) && key !in t
    ensures var rs := Burst(n, path, key, now);
      ClockRuns(rs, now) && LetThrough(t, l, rs, key, now, now) == Min(n, Max(0, l.burst.Floor))
  {
    assert Limited(l, path);
    hide Limited, LetThrough, Admitted;
    var rs := Burst(n, path, key, now);
    BurstCalls(l, n, path, key, now);
    if n == 0 {
      NobodyGetsThrough(t, l, key, now, now);
    } else {
      var full := BucketFor(t, l, rs[0]);
      FullBucketChangesNothing(t, l, rs, now, now);
      LetThroughIsAdmitted(t[key := full], l, rs, key, now, now);
      VolleyIsServed(full, n, now);
    }
  }

  lemma NobodyGetsThrough(t: Buckets, l: Limits, key: string, t1: real, t2: real)
    ensures LetThrough(t, l, [], key, t1, t2) == 0
  {
  }
}
