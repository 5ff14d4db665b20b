/**
 The token bucket (internal/ratelimit/ratelimiter.go). Instants and waits are in nanoseconds, and the
 floating-point products and quotients are taken exactly and then rounded down.
 */
module RateLimit {
  const SECOND := 1_000_000_000

  datatype Bucket = Bucket(capacity: int, tokens: int, lastRefill: int)

  /** Bytes to reserve for a range (internal/service/runner.go:438-448). */
  function SafeSpan(end: int, start: int): (bytes: int)
    ensures bytes >= 0
    ensures 0 <= end && start <= end ==> bytes == end - start + 1
    ensures 0 <= end < start ==> bytes == 0
    ensures end < 0 ==> bytes == 1_048_576
  {
    if end < 0 then 0x10_0000
    else if end - start + 1 < 0 then 0
    else end - start + 1
  }

  // ---- One reservation ----

  function Refilled(b: Bucket, now: int): Bucket {
    var elapsed := now - b.lastRefill;
    if elapsed <= 0 then b
    else
      var refill := b.capacity * elapsed / SECOND;
      if refill <= 0 then b
      else b.(tokens := if b.tokens + refill > b.capacity then b.capacity else b.tokens + refill, lastRefill := now)
  }

  /** Bytes taken from the bucket. */
  function Drawn(b: Bucket, bytes: int): int { if b.tokens >= bytes then bytes else b.tokens }

  /** Bytes granted beyond the tokens, to be waited for. */
  function Owed(b: Bucket, bytes: int): int { if b.tokens >= bytes then 0 else bytes - b.tokens }

  function WaitFor(b: Bucket, bytes: int): int
    requires b.capacity > 0
  {
    Owed(b, bytes) * SECOND / b.capacity
  }

  class SimpleRateLimiter {
    var buckets: map<string, Bucket>

    constructor ()
      ensures buckets == map[]
    {
      buckets := map[];
    }

    method SetLimit(key: string, bytesPerSecond: int, now: int)
      modifies this
      ensures buckets == old(buckets)[key := Bucket(bytesPerSecond, bytesPerSecond, now)]
    {
      var b := if key in buckets then buckets[key] else Bucket(0, 0, 0);
      b := b.(capacity := bytesPerSecond);
      b := b.(tokens := bytesPerSecond);
      b := b.(lastRefill := now);
      buckets := buckets[key := b];
    }

    /** A key without a bucket, or with one that is not positive, is not limited. */
    method Reserve(key: string, bytes: int, now: int) returns (wait: int)
      modifies this
      ensures if key in old(buckets) && old(buckets)[key].capacity > 0
              then var b := Refilled(old(buckets)[key], now);
                   && wait == WaitFor(b, bytes)
                   && buckets == old(buckets)[key := b.(tokens := b.tokens - Drawn(b, bytes))]
              else wait == 0 && buckets == old(buckets)
    {
      if key !in buckets || buckets[key].capacity <= 0 {
        return 0;
      }
      var b := buckets[key];
      var elapsed := now - b.lastRefill;
      if elapsed > 0 {
        var refill := b.capacity * elapsed / SECOND;
        if refill > 0 {
          b := b.(tokens := b.tokens + refill);
          if b.tokens > b.capacity {
            b := b.(tokens := b.capacity);
          }
          b := b.(lastRefill := now);
        }
      }
      if b.tokens >= bytes {
        b := b.(tokens := b.tokens - bytes);
        wait := 0;
        assert Owed(Refilled(buckets[key], now), bytes) == 0;
      } else {
        var needed := bytes - b.tokens;
        b := b.(tokens := 0);
        wait := needed * SECOND / b.capacity;
      }
      buckets := buckets[key := b];
    }
  }

  // ---- Runs between two SetLimits ----

  datatype Request = Request(at: int, bytes: nat)

  /** A bucket and the account of everything reserved from it so far. */
  datatype Ledger = Ledger(bucket: Bucket, drawn: int, owed: int, waited: int, lastWait: int, lastAt: int)

  function Serve(l: Ledger, r: Request): Ledger
    requires l.bucket.capacity > 0
  {
    var b := Refilled(l.bucket, r.at);
    var wait := WaitFor(b, r.bytes);
    Ledger(b.(tokens := b.tokens - Drawn(b, r.bytes)), l.drawn + Drawn(b, r.bytes), l.owed + Owed(b, r.bytes),
           l.waited + wait, wait, r.at)
  }

  /** The account after a run of requests that starts when the limit is set at `start`. */
  function ServeAll(capacity: int, start: int, rs: seq<Request>): (l: Ledger)
    requires capacity > 0
    ensures l.bucket.capacity == capacity
  {
    if rs == [] then Ledger(Bucket(capacity, capacity, start), 0, 0, 0, 0, start)
    else Serve(ServeAll(capacity, start, rs[..|rs| - 1]), rs[|rs| - 1])
  }

  function TotalBytes(rs: seq<Request>): nat {
    if rs == [] then 0 else TotalBytes(rs[..|rs| - 1]) + rs[|rs| - 1].bytes
  }

  /** Requests come at non-decreasing instants, none before the limit was set. */
  ghost predicate InTime(start: int, rs: seq<Request>) {
    && (forall i | 0 <= i < |rs| :: start <= rs[i].at)
    && (forall i, j | 0 <= i < j < |rs| :: rs[i].at <= rs[j].at)
  }

  lemma FloorDivision(a: nat, b: nat)
    requires b > 0
    ensures (a / b) * b <= a < (a / b) * b + b
  {
  }

  lemma RefillBounded(b: Bucket, now: int)
    requires b.capacity > 0 && 0 <= b.tokens <= b.capacity && b.lastRefill <= now
    ensures var r := Refilled(b, now);
            && r.capacity == b.capacity && 0 <= r.tokens <= b.capacity && b.lastRefill <= r.lastRefill <= now
            && (r.tokens - b.tokens) * SECOND <= b.capacity * (r.lastRefill - b.lastRefill)
  {
    var elapsed := now - b.lastRefill;
    if elapsed > 0 {
      assert b.capacity * elapsed >= 0;
      FloorDivision(b.capacity * elapsed, SECOND);
    }
  }

  /** The wait is the time in which the owed bytes would flow in, rounded down to a nanosecond. */
  lemma WaitCovers(b: Bucket, bytes: nat)
    requires b.capacity > 0 && b.tokens >= 0
    ensures WaitFor(b, bytes) * b.capacity <= Owed(b, bytes) * SECOND < WaitFor(b, bytes) * b.capacity + b.capacity
    ensures WaitFor(b, bytes) >= 0
  {
    FloorDivision(Owed(b, bytes) * SECOND, b.capacity);
  }

  /** On every run between two SetLimits: the tokens stay between zero and the capacity, every byte
      reserved is either drawn or owed, and what is drawn is at most one capacity and the inflow. */
  lemma {:induction false} BucketBound(capacity: int, start: int, rs: seq<Request>)
    requires capacity > 0 && InTime(start, rs)
    ensures var l := ServeAll(capacity, start, rs);
            && 0 <= l.bucket.tokens <= capacity
            && TotalBytes(rs) == l.drawn + l.owed
            && start <= l.bucket.lastRefill <= l.lastAt && l.lastAt == (if rs == [] then start else rs[|rs| - 1].at)
            && (l.drawn + l.bucket.tokens) * SECOND <= capacity * SECOND + capacity * (l.bucket.lastRefill - start)
            && l.drawn * SECOND <= capacity * SECOND + capacity * (l.lastAt - start)
  {
    var l := ServeAll(capacity, start, rs);
    if rs != [] {
      var n := |rs| - 1;
      BucketBound(capacity, start, rs[..n]);
      var before := ServeAll(capacity, start, rs[..n]);
      RefillBounded(before.bucket, rs[n].at);
      var r := Refilled(before.bucket, rs[n].at);
      Distribute(capacity, r.lastRefill, before.bucket.lastRefill, start);
    }
    MulLessEqual(capacity, l.bucket.lastRefill - start, l.lastAt - start);
  }

  lemma Distribute(c: int, x: int, y: int, z: int)
    ensures c * (x - y) + c * (y - z) == c * (x - z)
  {
  }

  lemma MulLessEqual(c: nat, x: int, y: int)
    requires x <= y
    ensures c * x <= c * y
  {
  }

  /** What flows in by an instant, in whole bytes. */
  function Inflow(b: Bucket, now: int): int { if now <= b.lastRefill then 0 else b.capacity * (now - b.lastRefill) / SECOND }

  /** A request finds exactly the tokens there were and what has flowed in since, up to the capacity. It takes as many
      as it asks for and there are, owes the rest, and is told to wait the time in which that flows in; it owes
      nothing iff it asks for no more than it finds. Inflow of less than a byte is kept for later. */
  lemma RequestFinds(l: Ledger, r: Request)
    requires l.bucket.capacity > 0 && 0 <= l.bucket.tokens <= l.bucket.capacity
    ensures var next, c := Serve(l, r), l.bucket.capacity;
            var flowed := l.bucket.tokens + Inflow(l.bucket, r.at);
            var found := if flowed < c then flowed else c;
            var taken := if r.bytes <= found then r.bytes else found;
            && next.drawn == l.drawn + taken && next.bucket.tokens == found - taken
            && next.owed == l.owed + (r.bytes - taken) && (next.owed == l.owed <==> r.bytes <= found)
            && next.lastWait == (r.bytes - taken) * SECOND / c && next.waited == l.waited + next.lastWait
            && next.bucket.lastRefill == (if Inflow(l.bucket, r.at) > 0 then r.at else l.bucket.lastRefill)
            && next.bucket.capacity == c
  {
    RefilledIs(l.bucket, r.at);
  }

  lemma RefilledIs(b: Bucket, now: int)
    requires b.capacity > 0 && 0 <= b.tokens <= b.capacity
    ensures var flowed := b.tokens + Inflow(b, now);
            Refilled(b, now) == Bucket(b.capacity, if flowed < b.capacity then flowed else b.capacity,
                                       if Inflow(b, now) > 0 then now else b.lastRefill)
  {
    if now > b.lastRefill {
      assert b.capacity * (now - b.lastRefill) >= 0;
    }
  }

  /** No request finds the bucket so full that inflow is lost. */
  ghost predicate NeverFull(capacity: int, start: int, rs: seq<Request>)
    requires capacity > 0
  {
    rs == [] ||
    var n := |rs| - 1;
    NeverFull(capacity, start, rs[..n]) && LosesNothing(ServeAll(capacity, start, rs[..n]).bucket, rs[n].at)
  }

  predicate LosesNothing(b: Bucket, at: int) { b.tokens + Inflow(b, at) <= b.capacity }

  /** What has been drawn and what is left are at least the first capacity and the inflow, but for less than a byte for
      each of n requests. */
  predicate GrantedInFull(capacity: int, start: int, l: Ledger, n: nat) {
    (l.drawn + l.bucket.tokens) * SECOND >= capacity * SECOND + capacity * (l.bucket.lastRefill - start) - n * SECOND
  }

  /** From below: while no inflow is lost, all of it is granted, but for less than a byte a request. */
  lemma {:induction false} InflowIsGranted(capacity: int, start: int, rs: seq<Request>)
    requires capacity > 0 && InTime(start, rs) && NeverFull(capacity, start, rs)
    ensures GrantedInFull(capacity, start, ServeAll(capacity, start, rs), |rs|)
  {
    if rs != [] {
      var n := |rs| - 1;
      InflowIsGranted(capacity, start, rs[..n]);
      BucketBound(capacity, start, rs[..n]);
      GrantStep(capacity, start, ServeAll(capacity, start, rs[..n]), rs[n], n);
    }
  }

  lemma GrantStep(capacity: int, start: int, l: Ledger, r: Request, n: nat)
    requires l.bucket.capacity == capacity > 0 && 0 <= l.bucket.tokens <= capacity && LosesNothing(l.bucket, r.at)
    requires GrantedInFull(capacity, start, l, n)
    ensures GrantedInFull(capacity, start, Serve(l, r), n + 1)
  {
    var next, inflow := Serve(l, r), Inflow(l.bucket, r.at);
    RequestFinds(l, r);
    InflowRounds(l.bucket, r.at);
    assert next.drawn + next.bucket.tokens == l.drawn + l.bucket.tokens + inflow;
    Distribute(capacity, next.bucket.lastRefill, l.bucket.lastRefill, start);
    assert inflow * SECOND >= capacity * (next.bucket.lastRefill - l.bucket.lastRefill) - SECOND;
  }

  lemma InflowRounds(b: Bucket, now: int)
    requires b.capacity > 0
    ensures Inflow(b, now) >= 0
    ensures Inflow(b, now) > 0 ==> Inflow(b, now) * SECOND >= b.capacity * (now - b.lastRefill) - SECOND
  {
    if now > b.lastRefill {
      assert b.capacity * (now - b.lastRefill) >= 0;
      FloorDivision(b.capacity * (now - b.lastRefill), SECOND);
    }
  }

  /** What is owed in total is covered by the waits, up to one nanosecond of inflow for each call. */
  lemma {:induction false} WaitsCover(capacity: int, start: int, rs: seq<Request>)
    requires capacity > 0 && InTime(start, rs)
    ensures ServeAll(capacity, start, rs).owed * SECOND
            <= ServeAll(capacity, start, rs).waited * capacity + |rs| * capacity
  {
    if rs != [] {
      var n := |rs| - 1;
      WaitsCover(capacity, start, rs[..n]);
      BucketBound(capacity, start, rs[..n]);
      var before := ServeAll(capacity, start, rs[..n]);
      RefillBounded(before.bucket, rs[n].at);
      var r := Refilled(before.bucket, rs[n].at);
      WaitCovers(r, rs[n].bytes);
      AddCover(capacity, before.owed, before.waited, n, Owed(r, rs[n].bytes), WaitFor(r, rs[n].bytes));
    }
  }

  lemma AddCover(c: int, owed: int, waited: int, n: int, more: int, wait: int)
    requires owed * SECOND <= waited * c + n * c && more * SECOND <= wait * c + c
    ensures (owed + more) * SECOND <= (waited + wait) * c + (n + 1) * c
  {
  }

  /** A caller that sleeps through each wait before its next request. */
  ghost predicate Honours(capacity: int, start: int, rs: seq<Request>)
    requires capacity > 0
  {
    rs == [] ||
    var n := |rs| - 1;
    var l := ServeAll(capacity, start, rs[..n]);
    Honours(capacity, start, rs[..n]) && rs[n].at >= l.lastAt + l.lastWait
  }

  lemma {:induction false} WaitsPass(capacity: int, start: int, rs: seq<Request>)
    requires capacity > 0 && Honours(capacity, start, rs)
    ensures var l := ServeAll(capacity, start, rs); l.waited - l.lastWait <= l.lastAt - start
  {
    if rs != [] {
      WaitsPass(capacity, start, rs[..|rs| - 1]);
    }
  }

  /** One caller that honours its waits reserves at most the burst and twice the inflow, because tokens
      also flow in while it waits, plus the bytes of its last wait and one nanosecond's inflow a call. */
  lemma SequentialCallerBound(capacity: int, start: int, rs: seq<Request>)
    requires capacity > 0 && InTime(start, rs) && Honours(capacity, start, rs)
    ensures var l := ServeAll(capacity, start, rs);
            TotalBytes(rs) * SECOND <=
              capacity * SECOND + 2 * (capacity * (l.lastAt - start)) + capacity * l.lastWait + |rs| * capacity
  {
    var l := ServeAll(capacity, start, rs);
    BucketBound(capacity, start, rs);
    WaitsCover(capacity, start, rs);
    WaitsPass(capacity, start, rs);
    MulLessEqual(capacity, l.waited, l.lastAt - start + l.lastWait);
    AddBounds(capacity, l.drawn, l.owed, l.waited, l.lastAt - start, l.lastWait, |rs|);
  }

  lemma AddBounds(c: int, drawn: int, owed: int, waited: int, elapsed: int, last: int, n: int)
    requires drawn * SECOND <= c * SECOND + c * elapsed
    requires owed * SECOND <= waited * c + n * c && c * waited <= c * (elapsed + last)
    ensures (drawn + owed) * SECOND <= c * SECOND + 2 * (c * elapsed) + c * last + n * c
  {
  }

  /** A caller that asks for twice the limit every second. */
  function DoubleRequests(c: nat, k: nat): (rs: seq<Request>)
    ensures |rs| == k + 1 && forall i | 0 <= i <= k :: rs[i] == Request(i * SECOND, 2 * c)
  {
    seq(k + 1, i requires 0 <= i < k + 1 => Request(i * SECOND, 2 * c))
  }

  /** Such a request is served half from the tokens that a second has brought, and told to wait a second. */
  lemma DoubleRequest(c: nat, l: Ledger, at: int)
    requires c > 0 && l.bucket.capacity == c
    requires Refilled(l.bucket, at) == Bucket(c, c, at)
    ensures Serve(l, Request(at, 2 * c)) == Ledger(Bucket(c, 0, at), l.drawn + c, l.owed + c, l.waited + SECOND, SECOND, at)
  {
    ExactDivision(SECOND, c);
    assert Owed(Bucket(c, c, at), 2 * c) == c;
  }

  /** The account of such a caller after k seconds. */
  function DoubleLedger(c: nat, k: nat): Ledger {
    Ledger(Bucket(c, 0, k * SECOND), c * (k + 1), c * (k + 1), SECOND * (k + 1), SECOND, k * SECOND)
  }

  lemma DoubleStep(c: nat, k: nat)
    requires c > 0 && k > 0
    ensures Serve(DoubleLedger(c, k - 1), Request(k * SECOND, 2 * c)) == DoubleLedger(c, k)
  {
    SecondRefills(c, (k - 1) * SECOND);
    DoubleRequest(c, DoubleLedger(c, k - 1), k * SECOND);
    assert c * (k - 1 + 1) + c == c * (k + 1);
  }

  lemma FirstDouble(c: nat)
    requires c > 0
    ensures Serve(ServeAll(c, 0, []), Request(0, 2 * c)) == DoubleLedger(c, 0)
  {
    DoubleRequest(c, ServeAll(c, 0, []), 0);
  }

  lemma {:induction false} DoubleRun(c: nat, k: nat)
    requires c > 0
    ensures var rs := DoubleRequests(c, k);
            ServeAll(c, 0, rs) == DoubleLedger(c, k) && Honours(c, 0, rs) && TotalBytes(rs) == 2 * (c * (k + 1))
  {
    var rs := DoubleRequests(c, k);
    if k == 0 {
      assert [] + [rs[0]] == rs;
      ServeOne(c, 0, [], rs[0]);
      FirstDouble(c);
    } else {
      var before := DoubleRequests(c, k - 1);
      assert before + [rs[k]] == rs;
      DoubleRun(c, k - 1);
      ServeOne(c, 0, before, rs[k]);
      DoubleStep(c, k);
      assert c * (k - 1 + 1) + c == c * (k + 1);
    }
  }

  /** The inflow during a wait is granted again: for every k, a caller that asks for twice the limit each
      second honours every wait and has, after k seconds, 2C(k + 1) bytes: twice the limit for as long as
      it likes. */
  lemma WaitIsGrantedTwice(c: nat, k: nat)
    requires c > 0
    ensures var rs := DoubleRequests(c, k);
            && InTime(0, rs) && Honours(c, 0, rs)
            && TotalBytes(rs) == 2 * (c * (k + 1)) && ServeAll(c, 0, rs).lastAt == k * SECOND
  {
    DoubleRun(c, k);
  }

  lemma SecondRefills(c: nat, at: int)
    requires c > 0
    ensures Refilled(Bucket(c, 0, at), at + SECOND) == Bucket(c, c, at + SECOND)
  {
    ExactDivision(c, SECOND);
  }

  /** A caller whose requests never exceed the tokens there are, so that none is told to wait, stays
      within the burst and the inflow. */
  lemma NeverOwingStaysWithin(capacity: int, start: int, rs: seq<Request>)
    requires capacity > 0 && InTime(start, rs)
    requires forall i | 0 <= i < |rs| :: ServesAtOnce(capacity, start, rs, i)
    ensures TotalBytes(rs) * SECOND <= capacity * SECOND + capacity * (ServeAll(capacity, start, rs).lastAt - start)
    ensures ServeAll(capacity, start, rs).waited == 0
  {
    BucketBound(capacity, start, rs);
    NothingOwed(capacity, start, rs);
  }

  /** The i-th request finds enough tokens. */
  predicate ServesAtOnce(capacity: int, start: int, rs: seq<Request>, i: nat)
    requires capacity > 0 && i < |rs|
  {
    Refilled(ServeAll(capacity, start, rs[..i]).bucket, rs[i].at).tokens >= rs[i].bytes
  }

  lemma {:induction false} NothingOwed(capacity: int, start: int, rs: seq<Request>)
    requires capacity > 0 && forall i | 0 <= i < |rs| :: ServesAtOnce(capacity, start, rs, i)
    ensures ServeAll(capacity, start, rs).owed == 0 && ServeAll(capacity, start, rs).waited == 0
  {
    if rs != [] {
      var n := |rs| - 1;
      assert ServesAtOnce(capacity, start, rs, n);
      forall i | 0 <= i < n ensures ServesAtOnce(capacity, start, rs[..n], i) {
        assert ServesAtOnce(capacity, start, rs, i) && rs[..n][..i] == rs[..i];
      }
      NothingOwed(capacity, start, rs[..n]);
    }
  }

  /** All at one instant, requests stay within the burst iff none is told to wait for anything. */
  lemma {:induction false} BurstIff(capacity: int, start: int, rs: seq<Request>)
    requires capacity > 0 && forall i | 0 <= i < |rs| :: rs[i].at == start
    ensures var l := ServeAll(capacity, start, rs);
            && l.bucket.lastRefill == start && l.drawn + l.bucket.tokens == capacity && l.bucket.tokens >= 0
            && TotalBytes(rs) == l.drawn + l.owed && l.owed >= 0 && (l.owed > 0 ==> l.bucket.tokens == 0)
            && (TotalBytes(rs) <= capacity <==> l.owed == 0)
  {
    if rs != [] {
      BurstIff(capacity, start, rs[..|rs| - 1]);
    }
  }

  /** The converse fails: a debt may be covered by what has flowed in unused. One request of one byte more
      than the capacity, ten seconds on, is told to wait and stays within the burst and the inflow. */
  lemma DebtWithinInflow(c: nat)
    requires c > 0
    ensures var rs := [Request(10 * SECOND, c + 1)];
            var l := ServeAll(c, 0, rs);
            InTime(0, rs) && l.owed == 1 && TotalBytes(rs) * SECOND <= c * SECOND + c * (l.lastAt - 0)
  {
    var r := Request(10 * SECOND, c + 1);
    ServeOne(c, 0, [], r);
    assert [] + [r] == [r];
    RefillBounded(Bucket(c, c, 0), 10 * SECOND);
    FullStaysFull(c, 10 * SECOND);
  }

  lemma FullStaysFull(c: nat, now: int)
    requires c > 0
    ensures Refilled(Bucket(c, c, 0), now).tokens == c
  {
  }

  lemma ExactDivision(a: nat, b: nat)
    requires b > 0
    ensures b * a / b == a && a * b / b == a
  {
    var q := b * a / b;
    FloorDivision(b * a, b);
    MulLessEqual(b, q + 1, if q < a then a else q + 1);
    MulLessEqual(b, a + 1, if a < q then q else a + 1);
    assert b * (q + 1) == q * b + b && b * (a + 1) == b * a + b && b * q == q * b;
    assert a * b == b * a;
  }

  lemma ServeOne(capacity: int, start: int, rs: seq<Request>, r: Request)
    requires capacity > 0
    ensures ServeAll(capacity, start, rs + [r]) == Serve(ServeAll(capacity, start, rs), r)
    ensures TotalBytes(rs + [r]) == TotalBytes(rs) + r.bytes
    ensures Honours(capacity, start, rs + [r]) <==>
            Honours(capacity, start, rs) && r.at >= ServeAll(capacity, start, rs).lastAt + ServeAll(capacity, start, rs).lastWait
  {
    assert (rs + [r])[..|rs|] == rs;
  }
}
