// FeedSupervisor._run_feed (src/l2_pipeline/supervisor.py): restarts within a rolling window.
module Supervisor {
  import opened Connection

  datatype FeedState = Running | Restarting | PermanentlyFailed | Stopped

  /** How one call of the feed's factory ends. A crash may be followed by a cancellation while the
      supervisor sleeps before the restart. */
  datatype Outcome = CleanReturn | Cancelled | Crash(now: real, cancelledInBackoff: bool)

  /** The entries of restart_times a new crash at this time keeps. */
  function Recent(times: seq<real>, now: real, window: real): seq<real> {
    if times == [] then []
    else
      var n := |times| - 1;
      Recent(times[..n], now, window) + if now - times[n] < window then [times[n]] else []
  }

  /** restart_times after this history of crashes, pruned at every one of them. */
  function RestartTimes(crashes: seq<real>, window: real): seq<real> {
    if crashes == [] then []
    else
      var n := |crashes| - 1;
      Recent(RestartTimes(crashes[..n], window), crashes[n], window) + [crashes[n]]
  }

  /** Whether the last crash of the history makes the supervisor give up. */
  predicate GivesUp(crashes: seq<real>, window: real, maxRestarts: int) {
    crashes != [] && |RestartTimes(crashes, window)| > maxRestarts
  }

  predicate NonDecreasing(times: seq<real>) {
    forall i, j :: 0 <= i <= j < |times| ==> times[i] <= times[j]
  }

  function CrashTimes(outcomes: seq<Outcome>): seq<real> {
    if outcomes == [] then []
    else
      var n := |outcomes| - 1;
      CrashTimes(outcomes[..n]) + if outcomes[n].Crash? then [outcomes[n].now] else []
  }

  class FeedEntry {
    var state: FeedState
    var restartCount: nat
    var restartTimes: seq<real>

    constructor ()
      ensures state == Running && restartCount == 0 && restartTimes == []
    {
      state, restartCount, restartTimes := Running, 0, [];
    }
  }

  class FeedSupervisor {
    const policy: BackoffPolicy
    const maxRestarts: int
    const window: real

    constructor (policy: BackoffPolicy, maxRestarts: int, window: real)
      ensures this.policy == policy && this.maxRestarts == maxRestarts && this.window == window
    {
      this.policy, this.maxRestarts, this.window := policy, maxRestarts, window;
    }

    method RecentTimes(times: seq<real>, now: real) returns (kept: seq<real>)
      ensures kept == Recent(times, now, window)
    {
      kept := [];
      for i := 0 to |times|
        invariant kept == Recent(times[..i], now, window)
      {
        assert times[..i + 1][..i] == times[..i];
        if now - times[i] < window {
          kept := kept + [times[i]];
        }
      }
      assert times[..|times|] == times;
    }

    /** The except branch: counts the crash against the window, and gives up or restarts after
        the delay. */
    method HandleCrash(entry: FeedEntry, now: real, cancelled: bool, ghost crashes: seq<real>)
      returns (gaveUp: bool, delay: real)
      requires UsablePolicy(policy) && entry.restartTimes == RestartTimes(crashes, window)
      modifies entry
      ensures entry.restartTimes == RestartTimes(crashes + [now], window)
      ensures gaveUp <==> GivesUp(crashes + [now], window, maxRestarts)
      ensures gaveUp <==> |entry.restartTimes| > maxRestarts
      ensures entry.state == if gaveUp then PermanentlyFailed else if cancelled then Restarting else Running
      ensures entry.restartCount == old(entry.restartCount) + if gaveUp then 0 else 1
      ensures !gaveUp ==> 0.0 <= delay <= DelayCeiling(policy, old(entry.restartCount))
    {
      assert (crashes + [now])[..|crashes|] == crashes;
      entry.restartTimes := RecentTimes(entry.restartTimes, now);
      entry.restartTimes := entry.restartTimes + [now];
      if |entry.restartTimes| > maxRestarts {
        entry.state := PermanentlyFailed;
        return true, 0.0;
      }
      entry.restartCount := entry.restartCount + 1;
      entry.state := Restarting;
      delay := FullJitterDelay(policy, entry.restartCount - 1);
      gaveUp := false;
      if cancelled {
        return;
      }
      entry.state := Running;
    }

    /** What an entry records after these outcomes. */
    ghost predicate Records(entry: FeedEntry, outcomes: seq<Outcome>)
      reads entry
    {
      && entry.state == StateAfter(outcomes, window, maxRestarts)
      && entry.restartTimes == RestartTimes(CrashTimes(outcomes), window)
      && entry.restartCount == |CrashTimes(outcomes)| - (if entry.state == PermanentlyFailed then 1 else 0)
    }

    /** One turn of the loop: a clean return, a cancellation, whenever it comes, and the crash that
        exhausts the budget end it. */
    method HandleOutcome(entry: FeedEntry, outcomes: seq<Outcome>, k: nat) returns (ended: bool)
      requires UsablePolicy(policy) && k < |outcomes|
      requires Records(entry, outcomes[..k]) && entry.state == Running
      modifies entry
      ensures Records(entry, outcomes[..k + 1]) && ended == Ends(outcomes[..k + 1], window, maxRestarts)
      ensures !ended ==> entry.state == Running
      ensures outcomes[k] == CleanReturn ==> ended && entry.state == Stopped
      ensures outcomes[k] == Cancelled ==> ended && entry.state == Running
      ensures outcomes[k].Crash? ==>
        (entry.state == PermanentlyFailed <==> |entry.restartTimes| > maxRestarts) &&
        (entry.state == Restarting <==> |entry.restartTimes| <= maxRestarts && outcomes[k].cancelledInBackoff) &&
        (ended <==> entry.state != Running)
    {
      OneMoreOutcome(outcomes, k);
      var outcome := outcomes[k];
      if outcome.CleanReturn? {
        entry.state := Stopped;
        return true;
      }
      if outcome.Cancelled? {
        return true;
      }
      var delay: real;
      ended, delay := HandleCrash(entry, outcome.now, outcome.cancelledInBackoff, CrashTimes(outcomes[..k]));
      ended := ended || outcome.cancelledInBackoff;
    }

    /** The endless loop, run against a list of outcomes. */
    method RunFeed(entry: FeedEntry, outcomes: seq<Outcome>) returns (used: nat)
      requires UsablePolicy(policy) && Records(entry, [])
      modifies entry
      ensures used <= |outcomes| && Records(entry, outcomes[..used])
      ensures used < |outcomes| ==> Ends(outcomes[..used], window, maxRestarts)
      ensures forall k :: 0 <= k < used ==> !Ends(outcomes[..k], window, maxRestarts)
      ensures forall k :: 0 <= k < used - 1 ==> outcomes[k].Crash? && !outcomes[k].cancelledInBackoff
      ensures used == 0 ==> outcomes == [] && entry.state == Running
      ensures used > 0 ==>
        match outcomes[used - 1]
        case CleanReturn => entry.state == Stopped
        case Cancelled => entry.state == Running
        case Crash(now, cancelled) =>
          entry.state == if |entry.restartTimes| > maxRestarts then PermanentlyFailed
                         else if cancelled then Restarting else Running
      ensures 0 < used < |outcomes| ==> entry.state != Running || outcomes[used - 1] == Cancelled
    {
      used := 0;
      while used < |outcomes|
        invariant used <= |outcomes| && Records(entry, outcomes[..used]) && entry.state == Running
        invariant forall k :: 0 <= k <= used ==> !Ends(outcomes[..k], window, maxRestarts)
        invariant forall k :: 0 <= k < used ==> outcomes[k].Crash? && !outcomes[k].cancelledInBackoff
        invariant used > 0 ==> |entry.restartTimes| <= maxRestarts
      {
        var ended := HandleOutcome(entry, outcomes, used);
        used := used + 1;
        if ended {
          return;
        }
      }
    }
  }

  lemma OneMoreOutcome(outcomes: seq<Outcome>, k: nat)
    requires k < |outcomes|
    ensures CrashTimes(outcomes[..k + 1])
         == CrashTimes(outcomes[..k]) + if outcomes[k].Crash? then [outcomes[k].now] else []
    ensures !outcomes[k].Crash? ==> CrashTimes(outcomes[..k + 1]) == CrashTimes(outcomes[..k])
  {
    assert outcomes[..k + 1][..k] == outcomes[..k];
  }

  /** Whether the last of these outcomes ends the loop. */
  predicate Ends(outcomes: seq<Outcome>, window: real, maxRestarts: int) {
    outcomes != [] &&
    (outcomes[|outcomes| - 1].Crash? && !outcomes[|outcomes| - 1].cancelledInBackoff ==>
       GivesUp(CrashTimes(outcomes), window, maxRestarts))
  }

  /** The feed's state once the outcomes have been dealt with. */
  function StateAfter(outcomes: seq<Outcome>, window: real, maxRestarts: int): FeedState {
    if outcomes == [] || outcomes[|outcomes| - 1].Cancelled? then Running
    else if outcomes[|outcomes| - 1].CleanReturn? then Stopped
    else if GivesUp(CrashTimes(outcomes), window, maxRestarts) then PermanentlyFailed
    else if outcomes[|outcomes| - 1].cancelledInBackoff then Restarting
    else Running
  }

  lemma {:induction false} RecentConcat(a: seq<real>, b: seq<real>, now: real, window: real)
    ensures Recent(a + b, now, window) == Recent(a, now, window) + Recent(b, now, window)
  {
    if b == [] {
      assert a + b == a;
    } else {
      var n := |b| - 1;
      assert (a + b)[..|a| + n] == a + b[..n];
      RecentConcat(a, b[..n], now, window);
    }
  }

  /** A crash that was old before is still old later. */
  lemma {:induction false} RecentTwice(times: seq<real>, earlier: real, later: real, window: real)
    requires earlier <= later
    ensures Recent(Recent(times, earlier, window), later, window) == Recent(times, later, window)
  {
    if times != [] {
      var n := |times| - 1;
      RecentTwice(times[..n], earlier, later, window);
      var kept := if earlier - times[n] < window then [times[n]] else [];
      RecentConcat(Recent(times[..n], earlier, window), kept, later, window);
      assert kept != [] ==> kept[..0] == [];
      assert Recent([], later, window) == [];
    }
  }

  /** Pruning at every crash loses nothing that counts: with a clock that does not go back, the
      list is exactly the full crash history seen through the window. */
  lemma {:induction false} PruningAgreesWithHistory(crashes: seq<real>, window: real)
    requires NonDecreasing(crashes) && crashes != []
    ensures var n := |crashes| - 1;
      RestartTimes(crashes, window) == Recent(crashes[..n], crashes[n], window) + [crashes[n]]
  {
    var n := |crashes| - 1;
    if n > 0 {
      var init := crashes[..n];
      PruningAgreesWithHistory(init, window);
      var now, last := crashes[n], crashes[n - 1];
      assert init[..n - 1] + [last] == init && init[n - 1] == last;
      RecentConcat(Recent(init[..n - 1], last, window), [last], now, window);
      RecentTwice(init[..n - 1], last, now, window);
      RecentConcat(init[..n - 1], [last], now, window);
    }
  }

  /** Seen through the window, a history without clock steps back is one of its own suffixes. */
  lemma {:induction false} RecentIsSuffix(times: seq<real>, i: nat, now: real, window: real) returns (k: nat)
    requires NonDecreasing(times) && i <= |times|
    ensures k <= i && Recent(times[..i], now, window) == times[k..i]
    ensures k > 0 ==> now - times[k - 1] >= window
    ensures k < i ==> now - times[k] < window
    decreases i
  {
    if i == 0 {
      return 0;
    }
    k := RecentIsSuffix(times, i - 1, now, window);
    assert times[..i][..i - 1] == times[..i - 1];
    assert k < i - 1 ==> times[k] <= times[i - 1];
    if now - times[i - 1] < window {
      assert times[k..i] == times[k..i - 1] + [times[i - 1]];
    } else {
      k := i;
    }
  }

  /** Exactly when the supervisor gives up: at the crash that has maxRestarts others less than one
      window before it. With no restart allowed, that is the first. */
  lemma GivesUpIff(crashes: seq<real>, window: real, maxRestarts: int)
    requires NonDecreasing(crashes) && crashes != []
    ensures var n := |crashes| - 1;
      GivesUp(crashes, window, maxRestarts) <==>
      maxRestarts <= 0 || (n >= maxRestarts && crashes[n] - crashes[n - maxRestarts] < window)
  {
    var n := |crashes| - 1;
    PruningAgreesWithHistory(crashes, window);
    if maxRestarts > 0 {
      var k := RecentIsSuffix(crashes, n, crashes[n], window);
      assert n >= maxRestarts && n - maxRestarts >= k ==> crashes[k] <= crashes[n - maxRestarts];
      assert n >= maxRestarts && n - maxRestarts < k ==> crashes[n - maxRestarts] <= crashes[k - 1];
    }
  }

  /** So maxRestarts + 1 crashes that all led to restarts span at least a window. */
  lemma RestartsAreSpread(crashes: seq<real>, window: real, maxRestarts: nat, i: nat)
    requires NonDecreasing(crashes) && i + maxRestarts < |crashes|
    requires forall k :: 0 < k <= |crashes| ==> !GivesUp(crashes[..k], window, maxRestarts)
    ensures crashes[i + maxRestarts] - crashes[i] >= window
  {
    GivesUpIff(crashes[..i + maxRestarts + 1], window, maxRestarts);
  }
}
