// SimulatedFeedDriver (src/l2_pipeline/simulation/driver.py) over whole simulations: whatever the
// market and the faults do, every step that delivers anything ends converged or raises.
module Driver {
  import opened BookTypes
  import opened Engine
  import opened Synchronisation
  import opened SnapshotOutcome
  import opened Market
  import opened Faults

  const DEFAULT_SNAPSHOT_RETRY_LIMIT := 20

  datatype RecoveryRecord = RecoveryRecord(gapStep: int, recoveredStep: int)

  /** The three facts of assert_converged (src/l2_pipeline/simulation/convergence.py). */
  predicate Converged(engine: BookEngine, market: MarketSimulator)
    reads engine, market
  {
    && engine.state == Live
    && engine.lastAppliedId == Some(market.updateId)
    && Book(engine.bids, engine.asks) == Book(market.bids, market.asks)
  }

  /** assert_converged, by its full_book(). */
  method AssertConverged(engine: BookEngine, market: MarketSimulator) returns (passed: bool)
    ensures passed <==> Converged(engine, market)
    ensures passed <==> engine.state == Live && engine.lastAppliedId == Some(market.updateId)
                        && engine.bids == market.bids && engine.asks == market.asks
  {
    var book := engine.FullBook();
    passed := engine.state == Live && engine.lastAppliedId == Some(market.updateId)
              && book == Book(market.bids, market.asks);
  }

  /** Of these deliveries the latest event has the given id. */
  ghost predicate LatestIs(delivered: seq<DiffEvent>, id: int) {
    (forall e :: e in delivered ==> e.finalId <= id) && exists e :: e in delivered && e.finalId == id
  }

  lemma LatestGrows(before: seq<DiffEvent>, delivered: seq<DiffEvent>, earlier: int, id: int)
    requires before != [] ==> LatestIs(before, earlier) && earlier <= id
    requires LatestIs(delivered, id)
    ensures LatestIs(before + delivered, id)
  {
    var e :| e in delivered && e.finalId == id;
    assert e in before + delivered;
  }

  /** An engine waiting for a snapshot, having seen nothing newer than top: the simulator's events
      span one id each, and the first one buffered is the market's latest. */
  ghost predicate Waiting(s: EngineState, top: int) {
    && s.state != Live
    && (forall e :: e in s.buffer ==> e.prevId == e.finalId - 1 && e.finalId <= top)
    && (s.buffer != [] ==> s.buffer[0].finalId == top)
  }

  /** A current snapshot ends the wait at once. An aged one ends it only if the buffered event then
      carries the book to the present; otherwise the engine goes on waiting for the same id. */
  lemma LoadWhileWaiting(s: EngineState, snapshot: SnapshotEvent, top: int)
    requires Waiting(s, top) && snapshot.lastUpdateId <= top
    requires s.buffer != [] || snapshot.lastUpdateId == top
    ensures var (end, outcome) := LoadSnapshot(s, snapshot);
      && outcome in {Returned(Applied), Returned(SnapshotStale), Returned(GapDetected)}
      && (snapshot.lastUpdateId == top ==> outcome == Returned(Applied))
      && (outcome == Returned(Applied) ==> end.state == Live && end.lastAppliedId == Some(top))
      && (outcome != Returned(Applied) ==> Waiting(end, top) && end.buffer != [])
  {
    if snapshot.lastUpdateId == top {
      LoadOfNewestSnapshot(s, snapshot);
    } else {
      var survivors := Survivors(s.buffer, snapshot.lastUpdateId);
      FirstSurvives(s.buffer, snapshot.lastUpdateId);
      SurvivorsAreBuffered(s.buffer, snapshot.lastUpdateId);
      LoadOutcomeExact(s, snapshot);
      forall e | e in survivors[1..] ensures e in s.buffer && e.finalId > snapshot.lastUpdateId {
        assert e in survivors;
      }
      if survivors[1..] != [] {
        assert survivors[1..][0] in survivors[1..];
      } else {
        assert LastId(snapshot.lastUpdateId, survivors) == top;
      }
    }
  }

  lemma {:induction false} FirstSurvives(buffer: seq<DiffEvent>, id: int)
    requires buffer != [] && buffer[0].finalId > id
    ensures Survivors(buffer, id) != [] && Survivors(buffer, id)[0] == buffer[0]
  {
    if |buffer| > 1 {
      FirstSurvives(buffer[..|buffer| - 1], id);
    } else {
      assert Survivors(buffer[..0], id) == [];
    }
  }

  /** What one poll may hand to a LIVE engine that is at most at id: nothing, the next event, the
      next event twice, or the next event followed by the one held back before it. */
  ghost predicate PollShape(delivered: seq<DiffEvent>, id: int, checkpoint: int) {
    && |delivered| <= 2
    && (delivered != [] ==> delivered[0].prevId == id && delivered[0].finalId == id + 1)
    && (|delivered| == 2 ==>
          delivered[1] == delivered[0]
          || (delivered[1].finalId == id && delivered[1].prevId == id - 1 && checkpoint < id))
  }

  function FeedAll(s: EngineState, events: seq<DiffEvent>): EngineState {
    if events == [] then s
    else ApplyEvent(FeedAll(s, events[..|events| - 1]), events[|events| - 1]).0
  }

  predicate GapAmong(s: EngineState, events: seq<DiffEvent>) {
    events != [] &&
    (GapAmong(s, events[..|events| - 1])
     || ApplyEvent(FeedAll(s, events[..|events| - 1]), events[|events| - 1]).1 == GapDetected)
  }

  /** After the deliveries of one step, either there was no gap and the engine is at the market's
      id, or there was one and the engine waits for that id. */
  lemma AfterDeliveries(s: EngineState, delivered: seq<DiffEvent>, id: int)
    requires s.state == Live && s.lastAppliedId.Some? && s.lastAppliedId.value <= id && s.buffer == []
    requires PollShape(delivered, id, s.lastAppliedId.value) && delivered != []
    ensures var end := FeedAll(s, delivered);
      if GapAmong(s, delivered) then Waiting(end, id + 1) && end.buffer != []
      else |delivered| == 1 && end.state == Live && end.lastAppliedId == Some(id + 1)
    ensures GapAmong(s, delivered) <==> |delivered| == 2 || s.lastAppliedId.value < id
  {
    assert delivered[..1] == [delivered[0]] && [delivered[0]][..0] == [];
    assert FeedAll(s, []) == s && !GapAmong(s, []);
    assert FeedAll(s, [delivered[0]]) == ApplyEvent(s, delivered[0]).0;
    assert GapAmong(s, [delivered[0]]) == (ApplyEvent(s, delivered[0]).1 == GapDetected);
    if |delivered| == 2 {
      assert delivered == [delivered[0], delivered[1]];
    } else {
      assert delivered == [delivered[0]];
    }
  }

  lemma {:induction false} FeedAllSafe(h: History, s: EngineState, events: seq<DiffEvent>)
    requires Safe(h, WHOLE_BOOK, s) && forall e :: e in events ==> Faithful(h, e)
    ensures Safe(h, WHOLE_BOOK, FeedAll(s, events))
  {
    if events != [] {
      var n := |events| - 1;
      FeedAllSafe(h, s, events[..n]);
      DeliverSafe(h, Some(WHOLE_BOOK), FeedAll(s, events[..n]), events[n]);
    }
  }

  /** One attempt to synchronise, from any state. The market's current snapshot always ends it at the
      market's book; an aged one ends it at a true but perhaps older book, or is not accepted. An engine
      that waits for the current book gets that or goes on waiting. */
  lemma AttemptOutcome(h: History, s: EngineState, snapshot: SnapshotEvent, top: int)
    requires Safe(h, WHOLE_BOOK, s) && s.state != Live && TrueSnapshot(h, WHOLE_BOOK, snapshot)
    requires top in h && snapshot.lastUpdateId <= top && forall e :: e in s.buffer ==> e.finalId <= top
    ensures var (end, outcome) := LoadSnapshot(s, snapshot);
      && outcome.Returned? && Safe(h, WHOLE_BOOK, end) && (outcome.status == Applied <==> end.state == Live)
      && (end.state == Live ==> end.lastAppliedId.value in h && end.book == h[end.lastAppliedId.value])
      && (snapshot.lastUpdateId == top ==> end.state == Live && end.lastAppliedId == Some(top))
      && (Waiting(s, top) && s.buffer != [] ==>
            if end.state == Live then end.lastAppliedId == Some(top) else Waiting(end, top) && end.buffer != [])
  {
    LoadSnapshotSafe(h, WHOLE_BOOK, s, snapshot);
    if snapshot.lastUpdateId == top {
      LoadOfNewestSnapshot(s, snapshot);
    }
    if Waiting(s, top) && s.buffer != [] {
      LoadWhileWaiting(s, snapshot, top);
    }
    var (end, outcome) := LoadSnapshot(s, snapshot);
    if end.state == Live {
      AgreeOnWholeBook(end.book, h[end.lastAppliedId.value]);
    }
  }

  /** The deliveries of one tick: without a gap the engine has the market's new book, with one it
      waits for it. */
  lemma TickOutcome(h: History, s: EngineState, delivered: seq<DiffEvent>, id: int)
    requires Safe(h, WHOLE_BOOK, s) && s.state == Live && s.lastAppliedId.value <= id && id + 1 in h
    requires PollShape(delivered, id, s.lastAppliedId.value) && forall e :: e in delivered ==> Faithful(h, e)
    ensures var end := FeedAll(s, delivered);
      && Safe(h, WHOLE_BOOK, end)
      && (GapAmong(s, delivered) <==> |delivered| == 2 || (|delivered| == 1 && s.lastAppliedId.value < id))
      && (GapAmong(s, delivered) ==> Waiting(end, id + 1) && end.buffer != [])
      && (delivered != [] && !GapAmong(s, delivered) ==>
            end.state == Live && end.lastAppliedId == Some(id + 1) && end.book == h[id + 1])
  {
    FeedAllSafe(h, s, delivered);
    if delivered != [] {
      AfterDeliveries(s, delivered, id);
      if !GapAmong(s, delivered) {
        AgreeOnWholeBook(FeedAll(s, delivered).book, h[id + 1]);
      }
    }
  }

  lemma OneBuffered(s: EngineState, held: DiffEvent, snapshot: SnapshotEvent)
    requires s.state != Live && s.buffer == [held] && Straddles(held, snapshot.lastUpdateId)
    ensures var (end, outcome) := LoadSnapshot(s, snapshot);
      outcome == Returned(Applied) && end.state == Live && end.lastAppliedId == Some(held.finalId)
  {
    SurvivorsAreSuffix(s.buffer, snapshot.lastUpdateId, 0);
    LoadOutcomeExact(s, snapshot);
  }

  /** Why a held event must lie ahead of the checkpoint: were the engine already at its id, the swap
      would leave it waiting with only the older event, and an aged snapshot would then be accepted and
      end the step one id behind the market. */
  lemma HeldEventBehindCheckpoint(s: EngineState, event: DiffEvent, held: DiffEvent, snapshot: SnapshotEvent, id: int)
    requires s.state == Live && s.lastAppliedId == Some(id)
    requires event.prevId == id && event.finalId == id + 1 && held.prevId == id - 1 && held.finalId == id
    requires snapshot.lastUpdateId == id - 1
    ensures var (end, outcome) := LoadSnapshot(FeedAll(s, [event, held]), snapshot);
      outcome == Returned(Applied) && end.state == Live && end.lastAppliedId == Some(id)
  {
    assert [event, held][..1] == [event] && [event][..0] == [];
    assert FeedAll(s, []) == s;
    assert FeedAll(s, [event]) == ApplyEvent(s, event).0;
    OneBuffered(FeedAll(s, [event, held]), held, snapshot);
  }

  function AtLeastZero(n: int): nat {
    if n < 0 then 0 else n
  }

  ghost predicate AllDelayed(entries: seq<FaultRecord>) {
    forall entry :: entry in entries ==> entry.fault == DelayedSnapshot && !entry.shadowed
  }

  /** Between these two logs nothing but snapshot delays was recorded. */
  ghost predicate OnlyDelaysSince(before: seq<FaultRecord>, after: seq<FaultRecord>) {
    before <= after && AllDelayed(after[|before|..])
  }

  lemma DelaysAddUp(first: seq<FaultRecord>, second: seq<FaultRecord>, third: seq<FaultRecord>)
    requires OnlyDelaysSince(first, second) && OnlyDelaysSince(second, third)
    ensures OnlyDelaysSince(first, third)
  {
    assert third[|first|..] == second[|first|..] + third[|second|..];
  }

  lemma OneMoreDelay(before: seq<FaultRecord>, after: seq<FaultRecord>)
    requires after == before ||
      (|after| == |before| + 1 && after[..|before|] == before && AllDelayed([after[|before|]]))
    ensures OnlyDelaysSince(before, after)
  {
    assert |after| > |before| ==> after[|before|..] == [after[|before|]];
  }

  class SimulatedFeedDriver {
    const injector: FaultInjector
    const engine: BookEngine
    const snapshotRetryLimit: int
    var recoveries: seq<RecoveryRecord>
    var staleSnapshotRetries: nat
    var step: nat

    ghost predicate Ready()
      reads this, injector, injector.market, engine
    {
      injector.Valid() && injector.config.Usable() && Safe(injector.market.history, WHOLE_BOOK, engine.View())
    }

    /** Between steps the engine is LIVE with the market's book at its checkpoint, and any event
        the injector holds back is still ahead of that checkpoint. */
    ghost predicate Valid()
      reads this, injector, injector.market, engine
    {
      && Ready() && engine.state == Live
      && engine.lastAppliedId.Some? && 0 <= engine.lastAppliedId.value <= injector.market.updateId
      && (injector.held.Some? ==> engine.lastAppliedId.value < injector.market.updateId)
    }

    /** The last records of the log are of aged snapshots, one for each attempt of a synchronisation. */
    ghost predicate LogEndsInDelays()
      reads injector
    {
      var limit := AtLeastZero(snapshotRetryLimit);
      |injector.log| >= limit && AllDelayed(injector.log[|injector.log| - limit..])
    }

    ghost function Checkpoint(): int
      reads this, engine
      requires engine.lastAppliedId.Some?
    {
      engine.lastAppliedId.value
    }

    constructor (injector: FaultInjector, engine: BookEngine, snapshotRetryLimit: int)
      ensures this.injector == injector && this.engine == engine && this.snapshotRetryLimit == snapshotRetryLimit
      ensures step == 0 && staleSnapshotRetries == 0 && recoveries == []
    {
      this.injector, this.engine, this.snapshotRetryLimit := injector, engine, snapshotRetryLimit;
      recoveries, staleSnapshotRetries, step := [], 0, 0;
    }

    /** The whole of __init__: a driver that is LIVE when it is returned, unless its synchronisation
        raised. An engine that is already LIVE is left alone. With the current snapshot, as a fresh
        injector serves it, the driver starts converged. */
    static method Create(injector: FaultInjector, engine: BookEngine, snapshotRetryLimit: int)
      returns (driver: SimulatedFeedDriver, raised: bool)
      requires injector.Valid() && injector.config.Usable() && Safe(injector.market.history, WHOLE_BOOK, engine.View())
      modifies engine, injector`log
      ensures fresh(driver) && driver.injector == injector && driver.engine == engine
      ensures driver.snapshotRetryLimit == snapshotRetryLimit && driver.step == 0 && driver.recoveries == []
      ensures driver.Ready() && (raised <==> engine.state != Live)
      ensures injector.held == None && !raised ==> driver.Valid()
      ensures old(engine.state) == Live ==> engine.View() == old(engine.View()) && driver.staleSnapshotRetries == 0
      ensures raised ==> driver.LogEndsInDelays() && driver.staleSnapshotRetries == AtLeastZero(snapshotRetryLimit)
      ensures old(engine.state) != Live && (injector.step == 0 || injector.config.delayedSnapshotProb <= 0.0) ==>
                if snapshotRetryLimit >= 1 then !raised && Converged(engine, injector.market) else raised
    {
      driver := new SimulatedFeedDriver(injector, engine, snapshotRetryLimit);
      raised := false;
      if engine.state != Live {
        ghost var failures: nat;
        raised, failures := driver.Sync(None);
      }
    }

    /** The engine waits for the market's current book, having buffered its latest event first. */
    ghost predicate Waits()
      reads this, injector, injector.market, engine
    {
      Waiting(engine.View(), injector.market.updateId) && engine.buffer != []
    }

    /** One attempt, which fails only if the injector served, and logged, an aged snapshot. */
    method TrySnapshot() returns (status: ApplyStatus, ghost age: int)
      requires Ready() && engine.state != Live
      modifies engine, injector`log
      ensures Ready() && (status == Applied <==> engine.state == Live)
      ensures age == 0 || old(Waits()) ==> status == Applied ==> Converged(engine, injector.market)
      ensures status != Applied ==> age != 0 && (old(Waits()) ==> Waits())
      ensures if age == 0 then injector.log == old(injector.log)
              else
                && injector.step != 0 && injector.config.delayedSnapshotProb > 0.0
                && |injector.log| == |old(injector.log)| + 1
      ensures OnlyDelaysSince(old(injector.log), injector.log)
    {
      ghost var before, h := engine.View(), injector.market.history;
      var snapshot: SnapshotEvent;
      snapshot, age := injector.RequestSnapshot();
      OneMoreDelay(old(injector.log), injector.log);
      AttemptOutcome(h, before, snapshot, injector.market.updateId);
      var outcome := engine.LoadSnapshotInto(snapshot);
      status := outcome.status;
    }

    /** Fetches snapshots until one is accepted. It gives up only when every single attempt was
        served an aged snapshot: the log then ends in one delay record per attempt. */
    method Sync(gapStep: Option<int>) returns (raised: bool, ghost failures: nat)
      requires Ready() && engine.state != Live
      modifies engine, injector`log, this`recoveries, this`staleSnapshotRetries
      ensures Ready() && (raised <==> engine.state != Live)
      ensures !raised && (old(Waits()) || injector.step == 0 || injector.config.delayedSnapshotProb <= 0.0) ==>
                Converged(engine, injector.market)
      ensures recoveries == old(recoveries)
                + if !raised && gapStep.Some? then [RecoveryRecord(gapStep.value, step)] else []
      ensures OnlyDelaysSince(old(injector.log), injector.log)
      ensures staleSnapshotRetries == old(staleSnapshotRetries) + failures && (raised ==> LogEndsInDelays())
      ensures if raised then
                failures == AtLeastZero(snapshotRetryLimit) && |injector.log| == |old(injector.log)| + failures
              else failures < snapshotRetryLimit && failures <= |injector.log| - |old(injector.log)| <= failures + 1
      ensures injector.step == 0 || injector.config.delayedSnapshotProb <= 0.0 ==>
                staleSnapshotRetries == old(staleSnapshotRetries) && (raised ==> snapshotRetryLimit <= 0)
    {
      var attempt := 0;
      failures := 0;
      ghost var log0 := injector.log;
      while attempt < snapshotRetryLimit
        invariant attempt == failures <= AtLeastZero(snapshotRetryLimit)
        invariant Ready() && engine.state != Live && (old(Waits()) ==> Waits())
        invariant injector.step == 0 || injector.config.delayedSnapshotProb <= 0.0 ==> attempt == 0
        invariant OnlyDelaysSince(log0, injector.log) && |injector.log| == |log0| + attempt
        invariant staleSnapshotRetries == old(staleSnapshotRetries) + attempt
        invariant recoveries == old(recoveries)
        modifies engine, injector`log, this`staleSnapshotRetries, this`recoveries
      {
        ghost var logBefore := injector.log;
        var status: ApplyStatus;
        ghost var age: int;
        status, age := TrySnapshot();
        DelaysAddUp(log0, logBefore, injector.log);
        if status == Applied {
          if gapStep.Some? {
            recoveries := recoveries + [RecoveryRecord(gapStep.value, step)];
          }
          raised := false;
          return;
        }
        staleSnapshotRetries := staleSnapshotRetries + 1;
        attempt := attempt + 1;
        failures := failures + 1;
      }
      raised := true;
    }

    /** One tick. A step that delivers anything ends converged unless it raises; a step that
        delivers nothing leaves the engine as it was, LIVE at its older checkpoint. */
    method RunStep() returns (ghost delivered: seq<DiffEvent>, raised: bool)
      requires Valid()
      modifies this, injector, injector.market, engine
      ensures Ready() && step == old(step) + 1 && injector.market.updateId == old(injector.market.updateId) + 1
      ensures !raised ==> Valid() && Checkpoint() >= old(Checkpoint())
      ensures injector.sent == old(injector.sent) + delivered
      ensures delivered != [] ==> LatestIs(delivered, injector.market.updateId)
      ensures !raised && delivered != [] ==> Converged(engine, injector.market)
      ensures delivered == [] ==> !raised && engine.View() == old(engine.View())
      ensures var gap := |delivered| == 2 || (|delivered| == 1 && old(Checkpoint()) < old(injector.market.updateId));
        && (raised ==> gap && staleSnapshotRetries == old(staleSnapshotRetries) + AtLeastZero(snapshotRetryLimit))
        && (!raised ==> recoveries == old(recoveries) + if gap then [RecoveryRecord(old(step), step)] else [])
      ensures raised ==> LogEndsInDelays()
      ensures injector.config.delayedSnapshotProb <= 0.0 && snapshotRetryLimit >= 1 ==>
                !raised && staleSnapshotRetries == old(staleSnapshotRetries)
      ensures injector.config.FaultFree() && old(injector.IsQuiescent()) ==>
                delivered != [] && injector.IsQuiescent()
    {
      var current := step;
      step := step + 1;
      var events, gapThisStep := DeliverTick();
      delivered := events;
      raised := false;
      if gapThisStep {
        ghost var failures: nat;
        raised, failures := Sync(Some(current));
      }
    }

    /** The loop over one poll: every event goes to the engine, and a gap anywhere is remembered. */
    method FeedEngine(events: seq<DiffEvent>) returns (gap: bool)
      modifies engine
      ensures engine.View() == FeedAll(old(engine.View()), events)
      ensures gap == GapAmong(old(engine.View()), events)
    {
      gap := false;
      for i := 0 to |events|
        invariant engine.View() == FeedAll(old(engine.View()), events[..i])
        invariant gap == GapAmong(old(engine.View()), events[..i])
      {
        assert events[..i + 1][..i] == events[..i];
        var status := engine.ApplyEventTo(events[i]);
        if status == GapDetected {
          gap := true;
        }
      }
      assert events[..|events|] == events;
    }

    /** The part of a step before any synchronisation. */
    method DeliverTick() returns (events: seq<DiffEvent>, gapThisStep: bool)
      requires Valid()
      modifies injector, injector.market, engine
      ensures Ready() && injector.market.updateId == old(injector.market.updateId) + 1 && injector.step > 0
      ensures injector.sent == old(injector.sent) + events
      ensures events != [] ==> LatestIs(events, injector.market.updateId)
      ensures gapThisStep <==> |events| == 2 || (|events| == 1 && old(Checkpoint()) < old(injector.market.updateId))
      ensures if gapThisStep then Ready() && engine.state != Live && Waits() && injector.held == None
              else Valid() && if events == [] then engine.View() == old(engine.View())
                              else Converged(engine, injector.market)
      ensures injector.config.FaultFree() && old(injector.IsQuiescent()) ==> |events| == 1 && injector.IsQuiescent()
    {
      ghost var s0, id := engine.View(), injector.market.updateId;
      ghost var event: DiffEvent;
      ghost var rolls: seq<bool>;
      events, event, rolls := injector.Poll();
      assert events != [] ==> events[0] in events;
      gapThisStep := FeedEngine(events);
      TickOutcome(injector.market.history, s0, events, id);
    }

    /** After these deliveries the engine, once in the given state, is at the latest of them. */
    ghost predicate Follows(start: EngineState, delivered: seq<DiffEvent>)
      reads this, engine
    {
      if delivered == [] then engine.View() == start
      else engine.lastAppliedId.Some? && LatestIs(delivered, engine.lastAppliedId.value)
    }

    /** One more step of a run with these deliveries so far. */
    method ContinueRun(ghost start: EngineState, ghost before: seq<DiffEvent>)
      returns (ghost delivered: seq<DiffEvent>, raised: bool)
      requires Valid() && Follows(start, before)
      modifies this, injector, injector.market, engine
      ensures Ready() && step == old(step) + 1 && injector.market.updateId == old(injector.market.updateId) + 1
      ensures before <= delivered && injector.sent == old(injector.sent) + delivered[|before|..]
      ensures !raised ==> Valid() && Follows(start, delivered) && Checkpoint() >= old(Checkpoint())
      ensures raised ==> LogEndsInDelays()
      ensures injector.config.delayedSnapshotProb <= 0.0 && snapshotRetryLimit >= 1 ==> !raised
      ensures injector.config.FaultFree() && old(injector.IsQuiescent()) ==>
                injector.IsQuiescent() && (!raised ==> Converged(engine, injector.market))
    {
      ghost var checkpoint := Checkpoint();
      ghost var now: seq<DiffEvent>;
      now, raised := RunStep();
      delivered := before + now;
      if !raised && now != [] {
        LatestGrows(before, now, checkpoint, injector.market.updateId);
      }
    }

    /** Any number of steps, one market tick each: the checkpoint never goes back, and at the end the
        engine is LIVE with the market's book at the latest event that was delivered, unless a step
        raised, having been served nothing but aged snapshots. */
    method RunSteps(steps: nat) returns (ghost delivered: seq<DiffEvent>, raised: bool)
      requires Valid()
      modifies this, injector, injector.market, engine
      ensures Ready() && injector.sent == old(injector.sent) + delivered
      ensures injector.market.updateId - old(injector.market.updateId) == step - old(step) <= steps
      ensures !raised ==> Valid() && step == old(step) + steps && Checkpoint() >= old(Checkpoint())
      ensures !raised ==> Follows(old(engine.View()), delivered)
      ensures raised ==> LogEndsInDelays()
      ensures injector.config.delayedSnapshotProb <= 0.0 && snapshotRetryLimit >= 1 ==> !raised
      ensures injector.config.FaultFree() && old(injector.IsQuiescent()) && snapshotRetryLimit >= 1 && steps > 0
              ==> !raised && Converged(engine, injector.market)
    {
      delivered, raised := [], false;
      ghost var start, sent := engine.View(), injector.sent;
      for i := 0 to steps
        invariant Valid() && step == old(step) + i && Checkpoint() >= old(Checkpoint())
        invariant injector.market.updateId == old(injector.market.updateId) + i
        invariant injector.sent == sent + delivered && Follows(start, delivered)
        invariant injector.config.FaultFree() && old(injector.IsQuiescent()) ==>
                    injector.IsQuiescent() && (i > 0 ==> Converged(engine, injector.market))
      {
        ghost var before := delivered;
        delivered, raised := ContinueRun(start, before);
        assert sent + before + delivered[|before|..] == sent + delivered;
        if raised {
          return;
        }
      }
    }
  }

  /** build_simulation: a fresh market, injector, engine and driver, synchronised at once. */
  method BuildSimulation(config: FaultConfig, spreadMin: real, depthLevels: int, snapshotRetryLimit: int)
    returns (driver: SimulatedFeedDriver)
    requires config.Usable() && spreadMin > 0.0 && snapshotRetryLimit >= 1
    ensures fresh(driver) && fresh(driver.injector) && fresh(driver.injector.market) && fresh(driver.engine)
    ensures driver.Valid() && Converged(driver.engine, driver.injector.market)
    ensures driver.injector.config == config && driver.snapshotRetryLimit == snapshotRetryLimit
    ensures driver.step == 0 && driver.injector.market.updateId == 0
  {
    var market := new MarketSimulator(spreadMin);
    var injector := new FaultInjector(market, config);
    var engine := new BookEngine(depthLevels);
    var raised: bool;
    driver, raised := SimulatedFeedDriver.Create(injector, engine, snapshotRetryLimit);
  }

  /** The tail: a fresh injector without faults, and a driver for it over the market and engine of
      another, run until assert_converged. */
  method RunTail(driver: SimulatedFeedDriver, tailSteps: nat) returns (passed: bool, tail: SimulatedFeedDriver)
    requires driver.Valid() && tailSteps > 0
    modifies driver.injector.market, driver.engine
    ensures tail.engine == driver.engine && tail.injector.market == driver.injector.market
    ensures tail.injector.config == NO_FAULTS && tail.step == tailSteps
    ensures tail.injector.market.updateId == old(driver.injector.market.updateId) + tailSteps
    ensures passed && Converged(tail.engine, tail.injector.market)
  {
    var injector := new FaultInjector(driver.injector.market, NO_FAULTS);
    ghost var delivered: seq<DiffEvent>;
    var raised: bool;
    tail, raised := SimulatedFeedDriver.Create(injector, driver.engine, DEFAULT_SNAPSHOT_RETRY_LIMIT);
    delivered, raised := tail.RunSteps(tailSteps);
    passed := AssertConverged(tail.engine, tail.injector.market);
  }

  /** The repository's property test H1, for every configuration, length and sequence of draws: unless
      the run under faults raises, a fault-free tail of at least one step over the same market and
      engine ends converged, with the whole book compared. */
  method ConvergesUnderArbitraryFaults(config: FaultConfig, steps: nat, tailSteps: nat)
    returns (raised: bool, passed: bool, driver: SimulatedFeedDriver, tail: SimulatedFeedDriver?)
    requires config.Usable() && tailSteps > 0
    ensures driver.injector.config == config && driver.snapshotRetryLimit == 20
    ensures raised ==> driver.LogEndsInDelays() && config.delayedSnapshotProb > 0.0
    ensures !raised ==>
      && tail != null && tail.engine == driver.engine && tail.injector.market == driver.injector.market
      && tail.injector.config == NO_FAULTS && driver.step == steps && tail.step == tailSteps
      && tail.injector.market.updateId == steps + tailSteps
      && passed && tail.engine.state == Live && tail.engine.lastAppliedId == Some(steps + tailSteps)
      && tail.engine.bids == tail.injector.market.bids && tail.engine.asks == tail.injector.market.asks
  {
    driver := BuildSimulation(config, 0.01, 20, DEFAULT_SNAPSHOT_RETRY_LIMIT);
    ghost var delivered: seq<DiffEvent>;
    delivered, raised := driver.RunSteps(steps);
    if raised {
      return true, false, driver, null;
    }
    passed, tail := RunTail(driver, tailSteps);
  }
}
