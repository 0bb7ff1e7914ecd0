// TokenBucket (src/l2_pipeline/feeds/ratelimit.py), over exact real arithmetic and a clock that never
// goes back. Each call is given the clock reading it makes.
module RateLimit {

  datatype Bucket = Bucket(tokens: real, lastRefill: real)

  datatype Policy = Policy(capacity: real, rate: real)

  /** What a stretch of time is worth in tokens. */
  function Earned(rate: real, elapsed: real): real {
    rate * elapsed
  }

  /** How long it takes to earn an amount. */
  function TimeFor(rate: real, amount: real): real
    requires rate > 0.0
  {
    amount / rate
  }

  function Refill(p: Policy, b: Bucket, now: real): Bucket {
    var filled := b.tokens + Earned(p.rate, now - b.lastRefill);
    Bucket(if filled < p.capacity then filled else p.capacity, now)
  }

  function TryAcquire(p: Policy, b: Bucket, now: real, cost: real): (Bucket, bool) {
    var r := Refill(p, b, now);
    if r.tokens >= cost then (r.(tokens := r.tokens - cost), true) else (r, false)
  }

  function TimeUntilAvailable(p: Policy, b: Bucket, now: real, cost: real): (Bucket, real)
    requires p.rate > 0.0
  {
    var r := Refill(p, b, now);
    (r, if r.tokens >= cost then 0.0 else TimeFor(p.rate, cost - r.tokens))
  }

  class TokenBucket {
    const policy: Policy
    var tokens: real
    var lastRefill: real

    function View(): Bucket
      reads this
    {
      Bucket(tokens, lastRefill)
    }

    constructor (capacity: real, rate: real, now: real)
      ensures policy == Policy(capacity, rate) && View() == Bucket(capacity, now)
    {
      policy := Policy(capacity, rate);
      tokens, lastRefill := capacity, now;
    }

    method RefillNow(now: real)
      modifies this
      ensures View() == Refill(policy, old(View()), now)
      ensures lastRefill == now
      ensures var filled := old(tokens) + (now - old(lastRefill)) * policy.rate;
        tokens == if filled < policy.capacity then filled else policy.capacity
    {
      var elapsed := now - lastRefill;
      tokens := tokens + Earned(policy.rate, elapsed);
      if tokens >= policy.capacity {
        tokens := policy.capacity;
      }
      lastRefill := now;
    }

    method Acquire(now: real, cost: real) returns (granted: bool)
      modifies this
      ensures (View(), granted) == TryAcquire(policy, old(View()), now, cost)
      ensures lastRefill == now
      ensures var filled := old(tokens) + (now - old(lastRefill)) * policy.rate;
        var there := if filled < policy.capacity then filled else policy.capacity;
        granted == (there >= cost) && tokens == if granted then there - cost else there
    {
      RefillNow(now);
      if tokens >= cost {
        tokens := tokens - cost;
        return true;
      }
      return false;
    }

    method TimeUntil(now: real, cost: real) returns (wait: real)
      requires policy.rate > 0.0
      modifies this
      ensures (View(), wait) == TimeUntilAvailable(policy, old(View()), now, cost)
      ensures lastRefill == now
      ensures var filled := old(tokens) + (now - old(lastRefill)) * policy.rate;
        tokens == if filled < policy.capacity then filled else policy.capacity
      ensures if tokens >= cost then wait == 0.0 else wait * policy.rate == cost - tokens
    {
      RefillNow(now);
      if tokens >= cost {
        return 0.0;
      }
      var deficit := cost - tokens;
      WaitSpelledOut(policy.rate, deficit);
      return TimeFor(policy.rate, deficit);
    }

    /** How both feed clients spend a token: ask, sleep for at least the answer, acquire, and do not
        look at the result. Nobody else uses the bucket meanwhile. */
    method WaitAndAcquire(now: real, overslept: real, cost: real) returns (wait: real, granted: bool)
      requires Fair(policy) && lastRefill <= now && 0.0 <= overslept
      modifies this
      ensures granted <==> cost <= policy.capacity
      ensures var (asked, shortest) := TimeUntilAvailable(policy, old(View()), now, cost);
        wait == shortest && (View(), granted) == TryAcquire(policy, asked, now + wait + overslept, cost)
      ensures (View(), granted) == AfterRequest(policy, old(View()), Request(now, overslept), cost)
    {
      WaitIsExact(policy, View(), now, cost);
      wait := TimeUntil(now, cost);
      granted := Acquire(now + wait + overslept, cost);
    }
  }

  lemma WaitSpelledOut(rate: real, deficit: real)
    requires rate > 0.0
    ensures TimeFor(rate, deficit) * rate == deficit
  {
  }

  lemma EarnedSpelledOut(rate: real, elapsed: real)
    ensures Earned(rate, elapsed) == rate * elapsed
  {
  }

  lemma SpellOut(granted: real, capacity: real, rate: real, elapsed: real)
    requires granted <= capacity + Earned(rate, elapsed)
    ensures granted <= capacity + rate * elapsed
  {
  }

  /** A bucket that can serve something. */
  predicate Fair(p: Policy) {
    p.capacity >= 0.0 && p.rate > 0.0
  }

  predicate Holds(p: Policy, b: Bucket) {
    0.0 <= b.tokens <= p.capacity
  }

  lemma EarnedKeepsOrder(rate: real, a: real, b: real)
    requires rate > 0.0
    ensures a <= b <==> Earned(rate, a) <= Earned(rate, b)
  {
    if a <= b {
      assert (b - a) * rate >= 0.0;
    } else {
      assert (a - b) * rate > 0.0;
    }
  }

  lemma EarnedAddsUp(rate: real, a: real, b: real)
    ensures Earned(rate, a) + Earned(rate, b) == Earned(rate, a + b)
  {
  }

  lemma EarnedInTime(rate: real, amount: real)
    requires rate > 0.0
    ensures Earned(rate, TimeFor(rate, amount)) == amount && Earned(rate, 0.0) == 0.0
  {
  }

  /** Tokens that are short are there exactly after the time they take. */
  lemma AcquiresIff(p: Policy, b: Bucket, t: real, cost: real, wait: real)
    requires Fair(p) && b.lastRefill <= t && b.tokens <= p.capacity
    requires if b.tokens >= cost then wait == 0.0 else Earned(p.rate, wait) == cost - b.tokens
    ensures TryAcquire(p, b, t, cost).1 <==> cost <= p.capacity && b.lastRefill + wait <= t
  {
    var elapsed := t - b.lastRefill;
    EarnedInTime(p.rate, 0.0);
    EarnedKeepsOrder(p.rate, 0.0, elapsed);
    EarnedKeepsOrder(p.rate, wait, elapsed);
  }

  lemma WaitIsTime(p: Policy, tokens: real, cost: real)
    requires Fair(p) && tokens < cost
    ensures Earned(p.rate, TimeFor(p.rate, cost - tokens)) == cost - tokens && TimeFor(p.rate, cost - tokens) >= 0.0
  {
    EarnedInTime(p.rate, cost - tokens);
    EarnedKeepsOrder(p.rate, 0.0, TimeFor(p.rate, cost - tokens));
  }

  /** The answer of time_until_available is exact: acquiring succeeds at that time and later, and at
      no earlier time, precisely when the cost fits the bucket at all. */
  lemma WaitIsExact(p: Policy, b: Bucket, now: real, cost: real)
    requires Fair(p) && b.lastRefill <= now
    ensures var (asked, wait) := TimeUntilAvailable(p, b, now, cost);
      && wait >= 0.0
      && (if asked.tokens >= cost then wait == 0.0 else wait * p.rate == cost - asked.tokens)
      && forall t :: now <= t ==>
           (TryAcquire(p, asked, t, cost).1 <==> cost <= p.capacity && now + wait <= t)
  {
    var (asked, wait) := TimeUntilAvailable(p, b, now, cost);
    if asked.tokens < cost {
      WaitIsTime(p, asked.tokens, cost);
      WaitSpelledOut(p.rate, cost - asked.tokens);
    }
    forall t | now <= t
      ensures TryAcquire(p, asked, t, cost).1 <==> cost <= p.capacity && now + wait <= t
    {
      AcquiresIff(p, asked, t, cost, wait);
    }
  }

  /** A call made on the bucket: an attempt to acquire, or a question, which only refills. With it
      goes the refill it brings, elapsed time times rate. */
  datatype Call = Call(now: real, refill: real, cost: real, acquires: bool)

  function Filled(capacity: real, tokens: real, call: Call): real {
    if tokens + call.refill < capacity then tokens + call.refill else capacity
  }

  function Cost(capacity: real, tokens: real, call: Call): real {
    if call.acquires && Filled(capacity, tokens, call) >= call.cost then call.cost else 0.0
  }

  /** The tokens left after the calls. */
  function Left(capacity: real, tokens: real, calls: seq<Call>): real
    decreases |calls|
  {
    if calls == [] then tokens
    else Left(capacity, Filled(capacity, tokens, calls[0]) - Cost(capacity, tokens, calls[0]), calls[1..])
  }

  /** The total cost granted by the calls. */
  function Granted(capacity: real, tokens: real, calls: seq<Call>): real
    decreases |calls|
  {
    if calls == [] then 0.0
    else
      var cost := Cost(capacity, tokens, calls[0]);
      cost + Granted(capacity, Filled(capacity, tokens, calls[0]) - cost, calls[1..])
  }

  function Inflow(calls: seq<Call>): real {
    if calls == [] then 0.0 else calls[0].refill + Inflow(calls[1..])
  }

  /** The clock does not go back, and each call brings the refill for the time since the last. */
  predicate Timed(p: Policy, from: real, calls: seq<Call>) {
    forall k {:trigger TimedAt(p, from, calls, k)} :: 0 <= k < |calls| ==> TimedAt(p, from, calls, k)
  }

  predicate TimedAt(p: Policy, from: real, calls: seq<Call>, k: nat)
    requires k < |calls|
  {
    var before := if k == 0 then from else calls[k - 1].now;
    before <= calls[k].now && calls[k].refill == Earned(p.rate, calls[k].now - before)
  }

  predicate Plausible(calls: seq<Call>) {
    forall c :: c in calls ==> c.cost >= 0.0 && c.refill >= 0.0
  }

  /** One call of a run is one call of the class. */
  lemma CallIsMethodCall(p: Policy, b: Bucket, call: Call)
    requires call.refill == Earned(p.rate, call.now - b.lastRefill)
    ensures var cost := Cost(p.capacity, b.tokens, call);
      var after := Bucket(Filled(p.capacity, b.tokens, call) - cost, call.now);
      && Refill(p, b, call.now) == Bucket(Filled(p.capacity, b.tokens, call), call.now)
      && (call.acquires ==> TryAcquire(p, b, call.now, call.cost).0 == after)
      && (call.acquires ==> cost == if TryAcquire(p, b, call.now, call.cost).1 then call.cost else 0.0)
      && (!call.acquires ==> Refill(p, b, call.now) == after)
  {
  }

  /** Conservation: what is granted plus what is left never exceeds what was there plus the inflow. */
  lemma {:induction false} GrantedIsPaidFor(capacity: real, tokens: real, calls: seq<Call>)
    requires 0.0 <= tokens <= capacity && Plausible(calls)
    ensures 0.0 <= Left(capacity, tokens, calls) <= capacity
    ensures Granted(capacity, tokens, calls) + Left(capacity, tokens, calls) <= tokens + Inflow(calls)
    decreases |calls|
  {
    if calls != [] {
      assert calls[0] in calls && forall c :: c in calls[1..] ==> c in calls;
      GrantedIsPaidFor(capacity, Filled(capacity, tokens, calls[0]) - Cost(capacity, tokens, calls[0]), calls[1..]);
    }
  }

  lemma TimedParts(p: Policy, from: real, calls: seq<Call>, i: nat, j: nat)
    requires i <= j <= |calls| && Timed(p, from, calls)
    ensures Timed(p, if i == 0 then from else calls[i - 1].now, calls[i..j])
  {
    var before, part := if i == 0 then from else calls[i - 1].now, calls[i..j];
    forall k {:trigger TimedAt(p, before, part, k)} | 0 <= k < |part| ensures TimedAt(p, before, part, k) {
      assert TimedAt(p, from, calls, i + k);
    }
  }

  lemma {:induction false} InflowIsElapsed(p: Policy, from: real, calls: seq<Call>)
    requires p.rate > 0.0 && Timed(p, from, calls)
    ensures calls != [] ==> Inflow(calls) == Earned(p.rate, calls[|calls| - 1].now - from)
    ensures forall c :: c in calls ==> c.refill >= 0.0
    decreases |calls|
  {
    if calls != [] {
      var now := calls[0].now;
      assert TimedAt(p, from, calls, 0);
      EarnedInTime(p.rate, 0.0);
      EarnedKeepsOrder(p.rate, 0.0, now - from);
      TimedParts(p, from, calls, 1, |calls|);
      assert calls[1..|calls|] == calls[1..];
      InflowIsElapsed(p, now, calls[1..]);
      assert calls == [calls[0]] + calls[1..];
      if |calls| > 1 {
        EarnedAddsUp(p.rate, calls[|calls| - 1].now - now, now - from);
      }
    }
  }

  lemma WindowBound(capacity: real, tokens: real, window: seq<Call>)
    requires 0.0 <= tokens <= capacity && Plausible(window) && window != []
    ensures Granted(capacity, tokens, window) <= capacity + Inflow(window[1..])
  {
    var first := window[0];
    assert first in window && forall c :: c in window[1..] ==> c in window;
    var next := Filled(capacity, tokens, first) - Cost(capacity, tokens, first);
    GrantedIsPaidFor(capacity, next, window[1..]);
  }

  lemma InflowWithinWindow(p: Policy, from: real, calls: seq<Call>, i: nat, j: nat)
    requires p.rate > 0.0 && Timed(p, from, calls) && i < j <= |calls|
    ensures Inflow(calls[i..j][1..]) == Earned(p.rate, calls[j - 1].now - calls[i].now)
  {
    assert calls[i..j][1..] == calls[i + 1..j];
    EarnedInTime(p.rate, 0.0);
    if i + 1 < j {
      TimedParts(p, from, calls, i + 1, j);
      InflowIsElapsed(p, calls[i].now, calls[i + 1..j]);
    }
  }

  lemma StretchBound(p: Policy, b: Bucket, calls: seq<Call>, i: nat, j: nat) returns (granted: real, elapsed: real)
    requires Fair(p) && Holds(p, b) && Timed(p, b.lastRefill, calls) && i < j <= |calls|
    requires forall c :: c in calls ==> c.cost >= 0.0
    ensures granted == Granted(p.capacity, Left(p.capacity, b.tokens, calls[..i]), calls[i..j])
    ensures elapsed == calls[j - 1].now - calls[i].now
    ensures granted <= p.capacity + Earned(p.rate, elapsed)
  {
    granted := Granted(p.capacity, Left(p.capacity, b.tokens, calls[..i]), calls[i..j]);
    elapsed := calls[j - 1].now - calls[i].now;
    InflowIsElapsed(p, b.lastRefill, calls);
    InflowWithinWindow(p, b.lastRefill, calls, i, j);
    GrantedIsPaidFor(p.capacity, b.tokens, calls[..i]);
    WindowBound(p.capacity, Left(p.capacity, b.tokens, calls[..i]), calls[i..j]);
  }

  /** The rate bound: in any stretch of any run, the total granted is at most one full bucket plus
      the refill for the time between the first and the last call of the stretch. */
  lemma RateBound(p: Policy, b: Bucket, calls: seq<Call>, i: nat, j: nat) returns (granted: real, elapsed: real)
    requires Fair(p) && Holds(p, b) && Timed(p, b.lastRefill, calls) && i < j <= |calls|
    requires forall c :: c in calls ==> c.cost >= 0.0
    ensures granted == Granted(p.capacity, Left(p.capacity, b.tokens, calls[..i]), calls[i..j])
    ensures elapsed == calls[j - 1].now - calls[i].now
    ensures granted <= p.capacity + p.rate * elapsed
  {
    granted, elapsed := StretchBound(p, b, calls, i, j);
    EarnedSpelledOut(p.rate, elapsed);
  }

  /** The calls of a run made on a bucket one after the other. */
  function AfterCalls(p: Policy, b: Bucket, calls: seq<Call>): Bucket
    decreases |calls|
  {
    if calls == [] then b
    else
      var call := calls[0];
      var next := if call.acquires then TryAcquire(p, b, call.now, call.cost).0 else Refill(p, b, call.now);
      AfterCalls(p, next, calls[1..])
  }

  /** What they are granted, call by call. */
  function GrantedByCalls(p: Policy, b: Bucket, calls: seq<Call>): real
    decreases |calls|
  {
    if calls == [] then 0.0
    else
      var call := calls[0];
      if call.acquires then
        var (next, granted) := TryAcquire(p, b, call.now, call.cost);
        (if granted then call.cost else 0.0) + GrantedByCalls(p, next, calls[1..])
      else GrantedByCalls(p, Refill(p, b, call.now), calls[1..])
  }

  /** The runs of the bound are runs of the bucket: same tokens left, same cost granted. */
  lemma {:induction false} RunIsBucketRun(p: Policy, b: Bucket, calls: seq<Call>)
    requires Timed(p, b.lastRefill, calls)
    ensures AfterCalls(p, b, calls).tokens == Left(p.capacity, b.tokens, calls)
    ensures GrantedByCalls(p, b, calls) == Granted(p.capacity, b.tokens, calls)
    decreases |calls|
  {
    if calls != [] {
      var call := calls[0];
      assert TimedAt(p, b.lastRefill, calls, 0);
      TimedParts(p, b.lastRefill, calls, 1, |calls|);
      assert calls[1..|calls|] == calls[1..];
      CallIsMethodCall(p, b, call);
      var next := if call.acquires then TryAcquire(p, b, call.now, call.cost).0 else Refill(p, b, call.now);
      RunIsBucketRun(p, next, calls[1..]);
    }
  }

  /** How many of the calls are granted. */
  function Grants(capacity: real, tokens: real, calls: seq<Call>): nat
    decreases |calls|
  {
    if calls == [] then 0
    else
      var call := calls[0];
      var rest := Grants(capacity, Filled(capacity, tokens, call) - Cost(capacity, tokens, call), calls[1..]);
      rest + if call.acquires && Filled(capacity, tokens, call) >= call.cost then 1 else 0
  }

  /** What n grants of one unit cost. */
  function Price(n: nat, unit: real): real {
    if n == 0 then 0.0 else Price(n - 1, unit) + unit
  }

  lemma {:induction false} GrantsCost(capacity: real, tokens: real, calls: seq<Call>, unit: real)
    requires forall c :: c in calls && c.acquires ==> c.cost == unit
    ensures Granted(capacity, tokens, calls) == Price(Grants(capacity, tokens, calls), unit)
    decreases |calls|
  {
    if calls != [] {
      assert calls[0] in calls && forall c :: c in calls[1..] ==> c in calls;
      GrantsCost(capacity, Filled(capacity, tokens, calls[0]) - Cost(capacity, tokens, calls[0]), calls[1..], unit);
    }
  }

  /** So in any stretch of a client's calls, each of which asks for the same cost, the number granted
      is bounded by what one full bucket and the time of the stretch pay for. */
  lemma GrantsWithinRate(p: Policy, b: Bucket, calls: seq<Call>, i: nat, j: nat, unit: real)
      returns (price: real, elapsed: real)
    requires Fair(p) && Holds(p, b) && Timed(p, b.lastRefill, calls) && i < j <= |calls|
    requires unit >= 0.0 && forall c :: c in calls ==> c.cost == unit
    ensures price == Price(Grants(p.capacity, Left(p.capacity, b.tokens, calls[..i]), calls[i..j]), unit)
    ensures elapsed == calls[j - 1].now - calls[i].now
    ensures price <= p.capacity + p.rate * elapsed
  {
    price, elapsed := RateBound(p, b, calls, i, j);
    GrantsCost(p.capacity, Left(p.capacity, b.tokens, calls[..i]), calls[i..j], unit);
  }

  lemma OneMorePrice(n: nat, unit: real)
    ensures (n + 1) as real * unit == n as real * unit + unit
  {
  }

  lemma {:induction false} PriceSpelledOut(n: nat, unit: real)
    ensures Price(n, unit) == n as real * unit
  {
    if n > 0 {
      PriceSpelledOut(n - 1, unit);
      OneMorePrice(n - 1, unit);
    }
  }

  lemma SpellOutPrice(n: nat, unit: real, capacity: real, rate: real, elapsed: real)
    requires Price(n, unit) <= capacity + Earned(rate, elapsed)
    ensures n as real * unit <= capacity + rate * elapsed
  {
    PriceSpelledOut(n, unit);
    SpellOut(Price(n, unit), capacity, rate, elapsed);
  }

  /** A request of a client that waits as it is told: when it asks, and how much longer than told it
      sleeps. */
  datatype Request = Request(asked: real, overslept: real)

  /** time_until_available, the sleep, and try_acquire with its ignored result. */
  function AfterRequest(p: Policy, b: Bucket, r: Request, cost: real): (Bucket, bool)
    requires p.rate > 0.0
  {
    var (asked, wait) := TimeUntilAvailable(p, b, r.asked, cost);
    TryAcquire(p, asked, r.asked + wait + r.overslept, cost)
  }

  /** Requests made one behind the other, and the bucket before each of them and after the last.
      Request k is sent at the lastRefill of the bucket it leaves. */
  predicate RequestRun(p: Policy, requests: seq<Request>, buckets: seq<Bucket>, cost: real)
    requires p.rate > 0.0
  {
    && |buckets| == |requests| + 1 && Holds(p, buckets[0])
    && forall k :: 0 <= k < |requests| ==>
         && buckets[k].lastRefill <= requests[k].asked && requests[k].overslept >= 0.0
         && buckets[k + 1] == AfterRequest(p, buckets[k], requests[k], cost).0
  }

  /** A granted request pays: what it leaves is at most what there was, and what came in, less its cost. */
  predicate Paid(p: Policy, before: Bucket, after: Bucket, cost: real) {
    && Holds(p, after) && after.tokens <= p.capacity - cost && before.lastRefill <= after.lastRefill
    && after.tokens + cost <= before.tokens + Earned(p.rate, after.lastRefill - before.lastRefill)
  }

  lemma RequestPays(p: Policy, b: Bucket, r: Request, cost: real)
    requires Fair(p) && Holds(p, b) && 0.0 <= cost <= p.capacity && b.lastRefill <= r.asked && r.overslept >= 0.0
    ensures AfterRequest(p, b, r, cost).1 && Paid(p, b, AfterRequest(p, b, r, cost).0, cost)
  {
    var (asked, wait) := TimeUntilAvailable(p, b, r.asked, cost);
    var sent := r.asked + wait + r.overslept;
    WaitIsExact(p, b, r.asked, cost);
    EarnedInTime(p.rate, 0.0);
    EarnedKeepsOrder(p.rate, 0.0, r.asked - b.lastRefill);
    EarnedAddsUp(p.rate, r.asked - b.lastRefill, sent - r.asked);
    assert TryAcquire(p, asked, sent, cost).1;
  }

  lemma {:induction false} EveryRequestPays(p: Policy, requests: seq<Request>, buckets: seq<Bucket>, cost: real, k: nat)
    requires Fair(p) && 0.0 <= cost <= p.capacity && RequestRun(p, requests, buckets, cost) && k < |requests|
    ensures Holds(p, buckets[k]) && Paid(p, buckets[k], buckets[k + 1], cost)
  {
    if k > 0 {
      EveryRequestPays(p, requests, buckets, cost, k - 1);
    }
    RequestPays(p, buckets[k], requests[k], cost);
  }

  lemma OneMorePaid(p: Policy, from: Bucket, before: Bucket, after: Bucket, n: nat, cost: real)
    requires before.tokens + Price(n, cost) <= from.tokens + Earned(p.rate, before.lastRefill - from.lastRefill)
    requires Paid(p, before, after, cost)
    ensures after.tokens + Price(n + 1, cost) <= from.tokens + Earned(p.rate, after.lastRefill - from.lastRefill)
  {
    EarnedAddsUp(p.rate, before.lastRefill - from.lastRefill, after.lastRefill - before.lastRefill);
  }

  lemma {:induction false} StretchPays(p: Policy, buckets: seq<Bucket>, cost: real, i: nat, j: nat)
    requires i <= j < |buckets|
    requires forall k, m :: 0 <= k && m == k + 1 < |buckets| ==> Paid(p, buckets[k], buckets[m], cost)
    ensures buckets[j].tokens + Price(j - i, cost)
         <= buckets[i].tokens + Earned(p.rate, buckets[j].lastRefill - buckets[i].lastRefill)
    decreases j
  {
    if i < j {
      StretchPays(p, buckets, cost, i, j - 1);
      OneMorePaid(p, buckets[i], buckets[j - 1], buckets[j], j - 1 - i, cost);
    }
  }

  lemma RequestsStretch(p: Policy, requests: seq<Request>, buckets: seq<Bucket>, cost: real, i: nat, j: nat)
    requires Fair(p) && 0.0 <= cost <= p.capacity && RequestRun(p, requests, buckets, cost) && i < j <= |requests|
    ensures Price(j - i, cost) <= p.capacity + Earned(p.rate, buckets[j].lastRefill - buckets[i + 1].lastRefill)
  {
    forall k | 0 <= k < |requests| ensures Paid(p, buckets[k], buckets[k + 1], cost) {
      EveryRequestPays(p, requests, buckets, cost, k);
    }
    StretchPays(p, buckets, cost, i + 1, j);
    EveryRequestPays(p, requests, buckets, cost, j - 1);
    EveryRequestPays(p, requests, buckets, cost, i);
  }

  /** The rate at which a client that ignores the result sends: any stretch of its requests costs at most
      one full bucket and what the time from the first sending to the last is worth. */
  lemma RequestsWithinRate(p: Policy, requests: seq<Request>, buckets: seq<Bucket>, cost: real, i: nat, j: nat)
    requires Fair(p) && 0.0 <= cost <= p.capacity && RequestRun(p, requests, buckets, cost) && i < j <= |requests|
    ensures (j - i) as real * cost <= p.capacity + p.rate * (buckets[j].lastRefill - buckets[i + 1].lastRefill)
  {
    RequestsStretch(p, requests, buckets, cost, i, j);
    SpellOutPrice(j - i, cost, p.capacity, p.rate, buckets[j].lastRefill - buckets[i + 1].lastRefill);
  }
}
