// ConnectionManager (src/l2_pipeline/feeds/connection.py) and the reconnect budget the feed clients
// check after every disconnect.
module Connection {
  import opened BookTypes
  import opened Draws

  datatype ConnectionState = NotConnected | Connecting | Connected | Backoff

  datatype BackoffPolicy = BackoffPolicy(base: real, cap: real)

  function Pow2(n: nat): real {
    if n == 0 then 1.0 else 2.0 * Pow2(n - 1)
  }

  /** The upper end of the full-jitter draw. */
  function DelayCeiling(p: BackoffPolicy, attempt: nat): real {
    var exponential := p.base * Pow2(attempt);
    if exponential < p.cap then exponential else p.cap
  }

  /** The first delay is drawn up to the base, and every further failure doubles what it is drawn up to,
      until the cap is reached. */
  lemma CeilingDoublesUpToCap(p: BackoffPolicy, attempt: nat)
    requires UsablePolicy(p)
    ensures DelayCeiling(p, 0) == if p.base < p.cap then p.base else p.cap
    ensures var doubled := 2.0 * DelayCeiling(p, attempt);
      DelayCeiling(p, attempt + 1) == if doubled < p.cap then doubled else p.cap
  {
    Doubles(p.base, Pow2(attempt));
  }

  lemma Doubles(base: real, power: real)
    ensures base * (2.0 * power) == 2.0 * (base * power)
  {
  }

  predicate UsablePolicy(p: BackoffPolicy) {
    p.base >= 0.0 && p.cap >= 0.0
  }

  lemma Pow2Positive(n: nat)
    ensures Pow2(n) >= 1.0
  {
  }

  method FullJitterDelay(p: BackoffPolicy, attempt: nat) returns (delay: real)
    requires UsablePolicy(p)
    ensures 0.0 <= delay <= DelayCeiling(p, attempt)
  {
    Pow2Positive(attempt);
    assert p.base * Pow2(attempt) >= 0.0;
    delay := Uniform(DelayCeiling(p, attempt));
  }

  datatype Manager = Manager(state: ConnectionState, attempt: nat, messageSeen: bool, disconnectedAt: Option<real>)

  const FRESH := Manager(NotConnected, 0, false, None)

  /** One call of the manager, with the clock it reads and the delay it hands out. */
  datatype Call =
    | Attempting
    | Up(now: real)
    | Message
    | Down(now: real, delay: real)

  function Apply(m: Manager, call: Call): Manager {
    match call
    case Attempting => m.(state := Connecting, messageSeen := false)
    case Up(_) => m.(state := Connected, disconnectedAt := None)
    case Message =>
      if m.state == Connected && !m.messageSeen then m.(messageSeen := true, attempt := 0) else m
    case Down(now, _) =>
      m.(state := Backoff, attempt := m.attempt + 1,
         disconnectedAt := if m.disconnectedAt.None? then Some(now) else m.disconnectedAt)
  }

  class ConnectionManager {
    const policy: BackoffPolicy
    var state: ConnectionState
    var attempt: nat
    var messageSeen: bool
    var disconnectedAt: Option<real>

    function View(): Manager
      reads this
    {
      Manager(state, attempt, messageSeen, disconnectedAt)
    }

    constructor (policy: BackoffPolicy)
      ensures this.policy == policy && View() == FRESH
    {
      this.policy := policy;
      state, attempt, messageSeen, disconnectedAt := NotConnected, 0, false, None;
    }

    method MarkConnecting()
      modifies this
      ensures View() == Apply(old(View()), Attempting)
      ensures state == Connecting && !messageSeen
      ensures attempt == old(attempt) && disconnectedAt == old(disconnectedAt)
    {
      state := Connecting;
      messageSeen := false;
    }

    /** The length of the outage that just ended, if there was one. */
    method MarkConnected(now: real) returns (attempts: nat, outage: Option<real>)
      modifies this
      ensures View() == Apply(old(View()), Up(now)) && attempts == old(attempt)
      ensures state == Connected && disconnectedAt == None
      ensures attempt == old(attempt) && messageSeen == old(messageSeen)
      ensures outage == match old(disconnectedAt) case None => None case Some(t) => Some(now - t)
    {
      state := Connected;
      outage := None;
      if disconnectedAt.Some? {
        outage := Some(now - disconnectedAt.value);
      }
      attempts := attempt;
      disconnectedAt := None;
    }

    method MessageReceived()
      modifies this
      ensures View() == Apply(old(View()), Message)
      ensures state == old(state) && disconnectedAt == old(disconnectedAt)
      ensures if state == Connected && !old(messageSeen) then messageSeen && attempt == 0
              else messageSeen == old(messageSeen) && attempt == old(attempt)
    {
      if state == Connected && !messageSeen {
        messageSeen := true;
        attempt := 0;
      }
    }

    method MarkDisconnected(now: real) returns (delay: real)
      requires UsablePolicy(policy)
      modifies this
      ensures View() == Apply(old(View()), Down(now, delay))
      ensures state == Backoff && attempt == old(attempt) + 1 && messageSeen == old(messageSeen)
      ensures disconnectedAt == if old(disconnectedAt).None? then Some(now) else old(disconnectedAt)
      ensures 0.0 <= delay <= DelayCeiling(policy, old(attempt))
    {
      state := Backoff;
      if disconnectedAt.None? {
        disconnectedAt := Some(now);
      }
      delay := FullJitterDelay(policy, attempt);
      attempt := attempt + 1;
    }

    /** _raise_if_reconnect_budget_exhausted. */
    method BudgetExhausted(maxFailures: int) returns (raised: bool)
      ensures raised <==> attempt >= maxFailures
    {
      raised := attempt >= maxFailures;
    }

    /** What both clients do on every disconnect. Over the whole run so far, it raises exactly when
        this disconnect completes a streak of maxFailures without a message. */
    method DisconnectOrRaise(now: real, maxFailures: nat, ghost calls: seq<Call>) returns (delay: real, raised: bool)
      requires UsablePolicy(policy) && maxFailures >= 1
      requires History(policy, calls) && View() == After(calls) && Fits(state, Down(now, 0.0)) && attempt < maxFailures
      modifies this
      ensures History(policy, calls + [Down(now, delay)]) && View() == After(calls + [Down(now, delay)])
      ensures raised <==> Streak(calls + [Down(now, delay)]) == maxFailures
      ensures !raised ==> attempt < maxFailures
    {
      delay := MarkDisconnected(now);
      raised := BudgetExhausted(maxFailures);
      assert (calls + [Down(now, delay)])[..|calls|] == calls;
      EscalatesAtMaxth(policy, calls + [Down(now, delay)], maxFailures);
    }
  }

  /** The order in which run() makes the calls: each connection is attempted, may come up and carry
      messages, and goes down. */
  predicate Fits(state: ConnectionState, call: Call) {
    match call
    case Attempting => state == NotConnected || state == Backoff
    case Up(_) => state == Connecting
    case Message => state == Connected
    case Down(_, _) => state == Connecting || state == Connected
  }

  function After(calls: seq<Call>): Manager {
    if calls == [] then FRESH else Apply(After(calls[..|calls| - 1]), calls[|calls| - 1])
  }

  /** A run of one client: calls in order, with delays as drawn. */
  predicate History(p: BackoffPolicy, calls: seq<Call>) {
    calls == [] ||
    (var n := |calls| - 1;
     && History(p, calls[..n]) && Fits(After(calls[..n]).state, calls[n])
     && (calls[n].Down? ==> 0.0 <= calls[n].delay <= DelayCeiling(p, After(calls[..n]).attempt)))
  }

  /** How many disconnects lie after the last message. */
  function Streak(calls: seq<Call>): nat {
    if calls == [] || calls[|calls| - 1].Message? then 0
    else Streak(calls[..|calls| - 1]) + if calls[|calls| - 1].Down? then 1 else 0
  }

  /** The delays handed out after the last message, added up. */
  function StreakDelay(calls: seq<Call>): real {
    if calls == [] || calls[|calls| - 1].Message? then 0.0
    else StreakDelay(calls[..|calls| - 1]) + if calls[|calls| - 1].Down? then calls[|calls| - 1].delay else 0.0
  }

  /** When the current outage began: the first disconnect since a connection last came up. */
  function OutageStart(calls: seq<Call>): Option<real> {
    if calls == [] || calls[|calls| - 1].Up? then None
    else
      var n := |calls| - 1;
      var before := OutageStart(calls[..n]);
      if before.None? && calls[n].Down? then Some(calls[n].now) else before
  }

  /** The counter is the streak, and the outage is measured from its first disconnect, however many
      failed attempts follow it. */
  lemma {:induction false} CounterIsStreak(p: BackoffPolicy, calls: seq<Call>)
    requires History(p, calls)
    ensures After(calls).attempt == Streak(calls)
    ensures After(calls).disconnectedAt == OutageStart(calls)
    ensures After(calls).state == Connected && After(calls).messageSeen ==> Streak(calls) == 0
    ensures After(calls).state == Connecting ==> !After(calls).messageSeen
  {
    if calls != [] {
      CounterIsStreak(p, calls[..|calls| - 1]);
    }
  }

  /** The client escalates at exactly the disconnect that completes a streak of maxFailures: if it
      has not escalated before, it does so now just when the streak is that long. */
  lemma EscalatesAtMaxth(p: BackoffPolicy, calls: seq<Call>, maxFailures: nat)
    requires History(p, calls) && calls != [] && calls[|calls| - 1].Down? && maxFailures >= 1
    requires After(calls[..|calls| - 1]).attempt < maxFailures
    ensures After(calls).attempt >= maxFailures <==> Streak(calls) == maxFailures
  {
    CounterIsStreak(p, calls);
    CounterIsStreak(p, calls[..|calls| - 1]);
  }

  /** The bound on the backoff of n consecutive failures: both the cap and the geometric sum. */
  function BackoffBudget(p: BackoffPolicy, n: nat): real {
    var capped, geometric := p.cap * n as real, p.base * (Pow2(n) - 1.0);
    if capped < geometric then capped else geometric
  }

  lemma Distribute(a: real, b: real, c: real)
    ensures a * (b + c) == a * b + a * c
  {
  }

  lemma BudgetGrows(p: BackoffPolicy, n: nat)
    ensures BackoffBudget(p, n) + DelayCeiling(p, n) <= BackoffBudget(p, n + 1)
    ensures BackoffBudget(p, 0) == 0.0
  {
    var pow := Pow2(n);
    Distribute(p.cap, n as real, 1.0);
    Distribute(p.base, pow - 1.0, pow);
    assert Pow2(n + 1) - 1.0 == (pow - 1.0) + pow;
    assert (n + 1) as real == n as real + 1.0;
  }

  /** All the backoff of a streak of n disconnects stays within the budget for n. A client that
      escalates at the max-th disconnect does not sleep for it, so it sleeps within max - 1. */
  lemma {:induction false} StreakDelayWithinBudget(p: BackoffPolicy, calls: seq<Call>)
    requires UsablePolicy(p) && History(p, calls)
    ensures StreakDelay(calls) <= BackoffBudget(p, Streak(calls))
  {
    BudgetGrows(p, 0);
    if calls != [] {
      var init := calls[..|calls| - 1];
      StreakDelayWithinBudget(p, init);
      CounterIsStreak(p, init);
      BudgetGrows(p, Streak(init));
    }
  }

  /** What an escalating client slept in its last streak, all maxFailures disconnects of it. */
  lemma EscalationSleepsWithinBudget(p: BackoffPolicy, calls: seq<Call>, maxFailures: nat)
    requires UsablePolicy(p) && History(p, calls) && calls != [] && calls[|calls| - 1].Down?
    requires maxFailures >= 1 && Streak(calls) == maxFailures
    ensures StreakDelay(calls[..|calls| - 1]) <= p.cap * (maxFailures - 1) as real
    ensures StreakDelay(calls[..|calls| - 1]) <= p.base * (Pow2(maxFailures - 1) - 1.0)
  {
    StreakDelayWithinBudget(p, calls[..|calls| - 1]);
  }
}
