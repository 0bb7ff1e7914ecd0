// FaultInjector (src/l2_pipeline/simulation/faults.py): what the simulated network delivers, when,
// and which snapshots it serves.
module Faults {
  import opened BookTypes
  import opened Draws
  import opened Engine
  import opened Synchronisation
  import opened Market

  datatype FaultType = DropOne | DropBurst | Duplicate | Reorder | Disconnect | DelayedSnapshot

  datatype FaultConfig = FaultConfig(
    dropOneProb: real, dropBurstProb: real, dropBurstMaxLen: int, duplicateProb: real, reorderProb: real,
    disconnectProb: real, disconnectMaxLen: int, delayedSnapshotProb: real, delayedSnapshotMaxSteps: int)
  {
    /** With other configurations poll can reach a randint that raises on its empty range, and
        request_snapshot an empty history. */
    predicate Usable() {
      && (dropBurstProb > 0.0 ==> dropBurstMaxLen >= 1)
      && (disconnectProb > 0.0 ==> disconnectMaxLen >= 1)
      && delayedSnapshotMaxSteps >= 0
    }

    function Prob(fault: FaultType): real {
      match fault
      case DropOne => dropOneProb
      case DropBurst => dropBurstProb
      case Duplicate => duplicateProb
      case Reorder => reorderProb
      case Disconnect => disconnectProb
      case DelayedSnapshot => delayedSnapshotProb
    }

    predicate FaultFree() {
      && disconnectProb <= 0.0 && dropBurstProb <= 0.0 && dropOneProb <= 0.0
      && duplicateProb <= 0.0 && reorderProb <= 0.0 && delayedSnapshotProb <= 0.0
    }
  }

  /** The default FaultConfig(): no faults. */
  const NO_FAULTS := FaultConfig(0.0, 0.0, 3, 0.0, 0.0, 0.0, 20, 0.0, 5)

  datatype FaultDetail =
    | Shadowed
    | WindowLen(len: int)
    | FinalIdOf(id: int)
    | HeldFinalId(id: int)
    | ServedSnapshot(agedStep: int, lookback: int)

  datatype FaultRecord = FaultRecord(step: int, fault: FaultType, detail: FaultDetail, shadowed: bool)

  /** How often a fault really fired, as summarize_log counts it. */
  function Fired(log: seq<FaultRecord>, fault: FaultType): nat {
    if log == [] then 0
    else
      var n := |log| - 1;
      Fired(log[..n], fault) + if log[n].fault == fault && !log[n].shadowed then 1 else 0
  }

  /** The ticks covered by all the drop windows ever opened. */
  function WindowTicks(log: seq<FaultRecord>): int {
    if log == [] then 0
    else
      var n := |log| - 1;
      WindowTicks(log[..n]) + if log[n].detail.WindowLen? then log[n].detail.len else 0
  }

  lemma LogGrowsByOne(log: seq<FaultRecord>, entry: FaultRecord, fault: FaultType)
    ensures Fired(log + [entry], fault)
         == Fired(log, fault) + if entry.fault == fault && !entry.shadowed then 1 else 0
    ensures WindowTicks(log + [entry])
         == WindowTicks(log) + if entry.detail.WindowLen? then entry.detail.len else 0
  {
    assert (log + [entry])[..|log|] == log;
  }

  /** By how much the deliveries exceed the ticks, going by the faults logged and what is pending. */
  function Balance(log: seq<FaultRecord>, windowRemaining: int, held: Option<DiffEvent>): int {
    Fired(log, Duplicate) - Fired(log, DropOne) - (WindowTicks(log) - windowRemaining) - if held.Some? then 1 else 0
  }

  /** How many of these deliveries are of the event with this final id. */
  function Copies(sent: seq<DiffEvent>, id: int): nat {
    if sent == [] then 0
    else
      var n := |sent| - 1;
      Copies(sent[..n], id) + if sent[n].finalId == id then 1 else 0
  }

  lemma OneMoreCopy(sent: seq<DiffEvent>, event: DiffEvent, id: int)
    ensures Copies(sent + [event], id) == Copies(sent, id) + if event.finalId == id then 1 else 0
  {
    assert (sent + [event])[..|sent|] == sent;
  }

  lemma TwoMoreCopies(sent: seq<DiffEvent>, first: DiffEvent, second: DiffEvent, id: int)
    ensures Copies(sent + [first, second], id)
         == Copies(sent, id) + (if first.finalId == id then 1 else 0) + (if second.finalId == id then 1 else 0)
  {
    OneMoreCopy(sent, first, id);
    OneMoreCopy(sent + [first], second, id);
    assert sent + [first, second] == sent + [first] + [second];
  }

  /** Of the events with final ids in (from, last], each was delivered at most twice, and of no other
      event was anything delivered. */
  ghost predicate AtMostTwice(sent: seq<DiffEvent>, from: int, last: int) {
    forall id :: Copies(sent, id) <= if from < id <= last then 2 else 0
  }

  lemma StillAtMostTwice(sent: seq<DiffEvent>, delivered: seq<DiffEvent>, event: DiffEvent, from: int, last: int)
    requires AtMostTwice(sent, from, last) && event.finalId == last + 1 && from <= last
    requires delivered in {[], [event], [event, event]}
    ensures AtMostTwice(sent + delivered, from, last + 1) && Copies(sent + delivered, last + 1) == |delivered|
  {
    forall id ensures Copies(sent + delivered, id) == Copies(sent, id) + if id == last + 1 then |delivered| else 0 {
      if delivered == [] {
        assert sent + delivered == sent;
      } else if delivered == [event] {
        OneMoreCopy(sent, event, id);
      } else {
        TwoMoreCopies(sent, event, event, id);
      }
    }
    assert Copies(sent, last + 1) == 0;
  }

  lemma HeldOnceMore(sent: seq<DiffEvent>, event: DiffEvent, held: DiffEvent, from: int, last: int)
    requires AtMostTwice(sent, from, last) && event.finalId == last + 1
    requires from < held.finalId == last && Copies(sent, last) == 0
    ensures AtMostTwice(sent + [event, held], from, last + 1)
  {
    forall id ensures Copies(sent + [event, held], id) <= if from < id <= last + 1 then 2 else 0 {
      TwoMoreCopies(sent, event, held, id);
      assert Copies(sent, id) <= if from < id <= last then 2 else 0;
    }
  }

  const PRECEDENCE := [Disconnect, DropBurst, DropOne, Duplicate, Reorder]

  /** The fault of highest precedence among those rolled. */
  function FirstRolled(rolls: seq<bool>): Option<FaultType>
    requires |rolls| == 5
  {
    if rolls[0] then Some(Disconnect) else if rolls[1] then Some(DropBurst) else if rolls[2] then Some(DropOne)
    else if rolls[3] then Some(Duplicate) else if rolls[4] then Some(Reorder) else None
  }

  /** The records of the first i rolls that hit without winning. */
  function ShadowRecords(tick: int, rolls: seq<bool>, i: nat): (entries: seq<FaultRecord>)
    requires |rolls| == 5 && i <= 5
    ensures forall k :: 0 <= k < |entries| ==> entries[k].shadowed && entries[k].detail == Shadowed
  {
    if i == 0 then []
    else
      ShadowRecords(tick, rolls, i - 1) +
      if rolls[i - 1] && Some(PRECEDENCE[i - 1]) != FirstRolled(rolls)
      then [FaultRecord(tick, PRECEDENCE[i - 1], Shadowed, true)] else []
  }

  /** A fault decides the tick exactly when its roll hits and no roll before it in the order of precedence
      does, and nothing decides it exactly when no roll hits. */
  lemma FirstHitWins(rolls: seq<bool>, k: nat)
    requires |rolls| == 5 && k < 5
    ensures FirstRolled(rolls) == Some([Disconnect, DropBurst, DropOne, Duplicate, Reorder][k])
        <==> rolls[k] && forall j :: 0 <= j < k ==> !rolls[j]
    ensures FirstRolled(rolls) == None <==> forall j :: 0 <= j < 5 ==> !rolls[j]
  {
    assert k == 0 || k == 1 || k == 2 || k == 3 || k == 4;
  }

  /** A tick logs as shadowed, in order of precedence, exactly the hits that have another before them. */
  lemma LaterHitsAreShadowed(tick: nat, rolls: seq<bool>)
    requires |rolls| == 5
    ensures ShadowRecords(tick, rolls, 5)
         == (if rolls[1] && rolls[0] then [FaultRecord(tick, DropBurst, Shadowed, true)] else [])
            + (if rolls[2] && true in rolls[..2] then [FaultRecord(tick, DropOne, Shadowed, true)] else [])
            + (if rolls[3] && true in rolls[..3] then [FaultRecord(tick, Duplicate, Shadowed, true)] else [])
            + (if rolls[4] && true in rolls[..4] then [FaultRecord(tick, Reorder, Shadowed, true)] else [])
  {
    assert rolls[..2] == [rolls[0], rolls[1]];
    assert rolls[..3] == [rolls[0], rolls[1], rolls[2]];
    assert rolls[..4] == [rolls[0], rolls[1], rolls[2], rolls[3]];
    assert ShadowRecords(tick, rolls, 1) == [];
    var upTo2 := ShadowRecords(tick, rolls, 2);
    assert upTo2 == if rolls[1] && rolls[0] then [FaultRecord(tick, DropBurst, Shadowed, true)] else [];
    var upTo3 := ShadowRecords(tick, rolls, 3);
    assert upTo3 == upTo2 + if rolls[2] && true in rolls[..2] then [FaultRecord(tick, DropOne, Shadowed, true)] else [];
    var upTo4 := ShadowRecords(tick, rolls, 4);
    assert upTo4 == upTo3 +
      if rolls[3] && true in rolls[..3] then [FaultRecord(tick, Duplicate, Shadowed, true)] else [];
  }

  /** Shadowed records count as no fault and open no window. */
  lemma {:induction false} ShadowsCountNothing(log: seq<FaultRecord>, entries: seq<FaultRecord>, fault: FaultType)
    requires forall k :: 0 <= k < |entries| ==> entries[k].shadowed && entries[k].detail == Shadowed
    ensures Fired(log + entries, fault) == Fired(log, fault) && WindowTicks(log + entries) == WindowTicks(log)
  {
    if entries == [] {
      assert log + entries == log;
    } else {
      var n := |entries| - 1;
      ShadowsCountNothing(log, entries[..n], fault);
      LogGrowsByOne(log + entries[..n], entries[n], fault);
      assert log + entries == log + entries[..n] + [entries[n]];
    }
  }

  /** What each fault delivers of the event of its tick. */
  function DeliveredBy(winner: Option<FaultType>, event: DiffEvent): seq<DiffEvent> {
    match winner
    case None => [event]
    case Some(Duplicate) => [event, event]
    case Some(_) => []
  }

  function HeldBy(winner: Option<FaultType>, event: DiffEvent): Option<DiffEvent> {
    if winner == Some(Reorder) then Some(event) else None
  }

  /** The record of the fault that decides a tick, with what is left of the window it opens. */
  function RecordOf(tick: int, winner: Option<FaultType>, event: DiffEvent, windowRemaining: int): seq<FaultRecord> {
    match winner
    case None => []
    case Some(Reorder) => [FaultRecord(tick, Reorder, HeldFinalId(event.finalId), false)]
    case Some(fault) =>
      if OpensWindow(winner) then [FaultRecord(tick, fault, WindowLen(windowRemaining + 1), false)]
      else [FaultRecord(tick, fault, FinalIdOf(event.finalId), false)]
  }

  predicate OpensWindow(winner: Option<FaultType>) {
    winner == Some(Disconnect) || winner == Some(DropBurst)
  }

  lemma ShadowsBalance(log: seq<FaultRecord>, shadows: seq<FaultRecord>)
    requires forall k :: 0 <= k < |shadows| ==> shadows[k].shadowed && shadows[k].detail == Shadowed
    ensures Balance(log + shadows, 0, None) == Balance(log, 0, None)
  {
    ShadowsCountNothing(log, shadows, Duplicate);
    ShadowsCountNothing(log, shadows, DropOne);
  }

  lemma EntryBalances(log: seq<FaultRecord>, entry: FaultRecord, windowRemaining: int, held: Option<DiffEvent>)
    requires !entry.shadowed
    ensures Balance(log + [entry], windowRemaining, held)
         == Balance(log, windowRemaining, held)
            + (if entry.fault == Duplicate then 1 else 0) - (if entry.fault == DropOne then 1 else 0)
            - (if entry.detail.WindowLen? then entry.detail.len else 0)
  {
    LogGrowsByOne(log, entry, Duplicate);
    LogGrowsByOne(log, entry, DropOne);
  }

  /** The record of a tick accounts for exactly what it delivers. */
  lemma TickBalances(log: seq<FaultRecord>, tick: int, winner: Option<FaultType>, event: DiffEvent,
                     windowRemaining: int)
    requires winner != Some(DelayedSnapshot) && (!OpensWindow(winner) ==> windowRemaining == 0)
    ensures Balance(log + RecordOf(tick, winner, event, windowRemaining), windowRemaining, HeldBy(winner, event))
         == Balance(log, 0, None) + |DeliveredBy(winner, event)| - 1
  {
    match winner
    case None =>
      assert log + [] == log;
    case Some(fault) =>
      var entry := RecordOf(tick, winner, event, windowRemaining)[0];
      EntryBalances(log, entry, windowRemaining, HeldBy(winner, event));
      assert RecordOf(tick, winner, event, windowRemaining) == [entry];
  }

  class FaultInjector {
    const market: MarketSimulator
    const config: FaultConfig
    var step: nat
    var windowRemaining: int
    var held: Option<DiffEvent>
    var log: seq<FaultRecord>
    var snapshotHistory: seq<(int, SnapshotEvent)>
    /** Every event poll has handed out, in order. */
    ghost var sent: seq<DiffEvent>

    /** A held event and an open window are never both pending; the held event is the market's
        latest and has not been delivered; the snapshot history is the latest consecutive true
        snapshots; and every event is accounted for. */
    ghost predicate Valid()
      reads this, market
    {
      Sound() && |sent| == step + Balance(log, windowRemaining, held)
    }

    ghost predicate Sound()
      reads this`step, this`windowRemaining, this`held, this`snapshotHistory, this`sent, market
    {
      && market.Valid() && market.spreadMin > 0.0
      && config.delayedSnapshotMaxSteps >= -1 && windowRemaining >= 0 && !(held.Some? && windowRemaining > 0)
      && (held.Some? ==>
            && held.value.finalId == market.updateId && held.value.prevId == market.updateId - 1
            && Faithful(market.history, held.value)
            && step > 0 && Copies(sent, market.updateId) == 0)
      && HistoryValid(market.history, market.updateId)
      && AtMostTwice(sent, market.updateId - step, market.updateId)
    }

    ghost predicate HistoryValid(h: History, last: int)
      reads this`step, this`snapshotHistory
    {
      var n := |snapshotHistory|;
      && n == (if step < config.delayedSnapshotMaxSteps then step else config.delayedSnapshotMaxSteps) + 1
      && forall i :: 0 <= i < n ==>
           && snapshotHistory[i].0 == step - (n - 1 - i)
           && snapshotHistory[i].1.lastUpdateId == last - (n - 1 - i)
           && snapshotHistory[i].1.lastUpdateId in h
           && SnapshotBook(snapshotHistory[i].1) == h[snapshotHistory[i].1.lastUpdateId]
    }

    /** A deque raises on a negative maxlen. */
    constructor (market: MarketSimulator, config: FaultConfig)
      requires market.Valid() && market.spreadMin > 0.0 && config.delayedSnapshotMaxSteps >= -1
      ensures Valid() && this.market == market && this.config == config
      ensures step == 0 && held == None && windowRemaining == 0 && log == [] && sent == []
    {
      this.market, this.config := market, config;
      var snapshot := market.SnapshotNow();
      snapshotHistory := if config.delayedSnapshotMaxSteps == -1 then [] else [(0, snapshot)];
      step, windowRemaining, held, log, sent := 0, 0, None, [], [];
    }

    predicate IsQuiescent()
      reads this
    {
      held == None && windowRemaining == 0
    }

    /** The rolls of one tick: a fault without a chance is never rolled. */
    method RollAll() returns (rolls: seq<bool>)
      ensures |rolls| == 5
      ensures config.disconnectProb <= 0.0 ==> !rolls[0]
      ensures config.dropBurstProb <= 0.0 ==> !rolls[1]
      ensures config.dropOneProb <= 0.0 ==> !rolls[2]
      ensures config.duplicateProb <= 0.0 ==> !rolls[3]
      ensures config.reorderProb <= 0.0 ==> !rolls[4]
      ensures config.disconnectProb >= 1.0 ==> rolls[0]
      ensures config.dropBurstProb >= 1.0 ==> rolls[1]
      ensures config.dropOneProb >= 1.0 ==> rolls[2]
      ensures config.duplicateProb >= 1.0 ==> rolls[3]
      ensures config.reorderProb >= 1.0 ==> rolls[4]
    {
      rolls := [];
      for i := 0 to 5
        invariant |rolls| == i
        invariant forall k :: 0 <= k < i && config.Prob(PRECEDENCE[k]) <= 0.0 ==> !rolls[k]
        invariant forall k :: 0 <= k < i && config.Prob(PRECEDENCE[k]) >= 1.0 ==> rolls[k]
      {
        var hit := Chance(config.Prob(PRECEDENCE[i]));
        rolls := rolls + [hit];
      }
      assert PRECEDENCE[0] == Disconnect && PRECEDENCE[1] == DropBurst && PRECEDENCE[2] == DropOne;
      assert PRECEDENCE[3] == Duplicate && PRECEDENCE[4] == Reorder;
    }

    /** All five faults are rolled, the first hit in order of precedence wins, and every other hit is
        logged as shadowed. */
    method RollFaults(tick: nat) returns (ghost rolls: seq<bool>, winner: Option<FaultType>)
      modifies `log
      ensures |rolls| == 5 && winner == FirstRolled(rolls)
      ensures winner != Some(DelayedSnapshot)
      ensures config.disconnectProb <= 0.0 ==> winner != Some(Disconnect)
      ensures config.dropBurstProb <= 0.0 ==> winner != Some(DropBurst)
      ensures config.dropOneProb <= 0.0 ==> winner != Some(DropOne)
      ensures config.duplicateProb <= 0.0 ==> winner != Some(Duplicate)
      ensures config.reorderProb <= 0.0 ==> winner != Some(Reorder)
      ensures config.disconnectProb >= 1.0 ==> winner == Some(Disconnect)
      ensures log == old(log) + ShadowRecords(tick, rolls, 5)
    {
      var hits := RollAll();
      winner := if hits[0] then Some(Disconnect) else if hits[1] then Some(DropBurst) else if hits[2] then Some(DropOne)
                else if hits[3] then Some(Duplicate) else if hits[4] then Some(Reorder) else None;
      for i := 0 to 5
        invariant log == old(log) + ShadowRecords(tick, hits, i)
      {
        if hits[i] && Some(PRECEDENCE[i]) != winner {
          log := log + [FaultRecord(tick, PRECEDENCE[i], Shadowed, true)];
        }
      }
      rolls := hits;
    }

    /** Advances the market one event and decides its fate. The shapes the result can have say that
        an event is delivered at most twice and at most one tick late. */
    method Poll() returns (delivered: seq<DiffEvent>, ghost event: DiffEvent, ghost rolls: seq<bool>)
      requires Valid() && config.Usable()
      modifies this, market
      ensures Valid() && market.updateId == old(market.updateId) + 1 && step == old(step) + 1
      ensures forall k :: k in old(market.history) ==>
                k in market.history && market.history[k] == old(market.history)[k]
      ensures event.prevId == old(market.updateId) && event.finalId == market.updateId
      ensures |delivered| <= 2 && sent == old(sent) + delivered
      ensures forall e :: e in delivered ==> Faithful(market.history, e)
      ensures delivered != [] ==>
        delivered[0].prevId == old(market.updateId) && delivered[0].finalId == market.updateId && held == None
      ensures |delivered| == 2 ==> if old(held).Some? then delivered[1] == old(held).value
                                   else delivered[1] == delivered[0]
      ensures old(held).Some? ==> delivered == [event, old(held).value] && log == old(log) && IsQuiescent()
      ensures old(IsQuiescent()) ==> FateDecided(old(step), rolls, event, delivered, old(log))
      ensures old(held).None? && old(windowRemaining) > 0 ==>
                delivered == [] && windowRemaining == old(windowRemaining) - 1 && log == old(log)
      ensures config.FaultFree() && old(IsQuiescent()) ==> |delivered| == 1 && IsQuiescent()
    {
      var tick := step;
      var drawn := Advance();
      event, rolls := drawn, [];
      if held.Some? {
        delivered := ReleaseHeld(drawn);
        return;
      }
      if windowRemaining > 0 {
        SkipTick(drawn);
        delivered := [];
        return;
      }
      ghost var before := sent;
      delivered, rolls := DecideFate(tick, drawn);
      StillAtMostTwice(before, delivered, event, market.updateId - step, market.updateId - 1);
    }

    /** What a tick with nothing pending comes to: the first roll that hit decides what is delivered and
        what is held back, and the other hits and then the winner are logged. */
    ghost predicate FateDecided(tick: nat, rolls: seq<bool>, event: DiffEvent, delivered: seq<DiffEvent>,
                                before: seq<FaultRecord>)
      reads `held, `windowRemaining, `log
    {
      && |rolls| == 5 && delivered == DeliveredBy(FirstRolled(rolls), event)
      && held == HeldBy(FirstRolled(rolls), event)
      && (windowRemaining > 0 ==> OpensWindow(FirstRolled(rolls)))
      && log == before + ShadowRecords(tick, rolls, 5) + RecordOf(tick, FirstRolled(rolls), event, windowRemaining)
    }

    /** Everything but the event of the tick is accounted for. */
    ghost predicate Advanced(event: DiffEvent)
      reads this, market
    {
      && market.Valid() && market.spreadMin > 0.0 && HistoryValid(market.history, market.updateId) && step > 0
      && config.delayedSnapshotMaxSteps >= -1 && windowRemaining >= 0 && !(held.Some? && windowRemaining > 0)
      && event.prevId == market.updateId - 1 && event.finalId == market.updateId && Faithful(market.history, event)
      && (held.Some? ==>
            && held.value.finalId == market.updateId - 1 && held.value.prevId == market.updateId - 2
            && Faithful(market.history, held.value)
            && step > 1 && Copies(sent, market.updateId - 1) == 0)
      && AtMostTwice(sent, market.updateId - step, market.updateId - 1)
      && |sent| == step - 1 + Balance(log, windowRemaining, held)
    }

    /** The swap is completed: the event of this tick, and behind it the one held back. */
    method ReleaseHeld(event: DiffEvent) returns (delivered: seq<DiffEvent>)
      requires Advanced(event) && held.Some?
      modifies `held, `sent
      ensures Valid() && held == None && delivered == [event, old(held).value] && sent == old(sent) + delivered
    {
      delivered := [event, held.value];
      HeldOnceMore(sent, event, held.value, market.updateId - step, market.updateId - 1);
      sent := sent + delivered;
      held := None;
    }

    /** An active window drops the event of this tick. */
    method SkipTick(ghost event: DiffEvent)
      requires Advanced(event) && windowRemaining > 0
      modifies `windowRemaining
      ensures Valid() && windowRemaining == old(windowRemaining) - 1
    {
      windowRemaining := windowRemaining - 1;
      StillAtMostTwice(sent, [], event, market.updateId - step, market.updateId - 1);
      assert sent + [] == sent;
    }

    /** The part of poll every tick goes through: one market step, and its snapshot recorded. */
    method Advance() returns (event: DiffEvent)
      requires Valid()
      modifies this, market
      ensures Advanced(event) && market.updateId == old(market.updateId) + 1 && step == old(step) + 1
      ensures forall k :: k in old(market.history) ==>
                k in market.history && market.history[k] == old(market.history)[k]
      ensures held == old(held) && windowRemaining == old(windowRemaining)
      ensures log == old(log) && sent == old(sent)
    {
      event := StepMarket();
      assert market.updateId - step == old(market.updateId - step);
    }

    method StepMarket() returns (event: DiffEvent)
      requires Valid()
      modifies `step, `snapshotHistory, market
      ensures market.Valid() && market.updateId == old(market.updateId) + 1 && step == old(step) + 1
      ensures forall k :: k in old(market.history) ==>
                k in market.history && market.history[k] == old(market.history)[k]
      ensures event.prevId == old(market.updateId) && event.finalId == market.updateId
      ensures Faithful(market.history, event)
      ensures held.Some? ==> Faithful(market.history, held.value)
      ensures HistoryValid(market.history, market.updateId)
    {
      ghost var h0, id0 := market.history, market.updateId;
      step := step + 1;
      var raised: bool;
      event, raised := market.Step();
      if held.Some? {
        OldEventStaysFaithful(h0, market.history, id0, held.value);
      }
      var snapshot := market.SnapshotNow();
      AppendSnapshot((step, snapshot), h0);
    }

    /** With nothing pending: roll the faults and let the winner decide. */
    method DecideFate(tick: nat, event: DiffEvent) returns (delivered: seq<DiffEvent>, ghost rolls: seq<bool>)
      requires IsQuiescent() && config.Usable()
      modifies `held, `windowRemaining, `log, `sent
      ensures FateDecided(tick, rolls, event, delivered, old(log))
      ensures !(held.Some? && windowRemaining > 0) && windowRemaining >= 0
      ensures held.Some? ==> held.value == event && delivered == []
      ensures delivered in {[], [event], [event, event]} && sent == old(sent) + delivered
      ensures Balance(log, windowRemaining, held) == old(Balance(log, 0, None)) + |delivered| - 1
      ensures config.FaultFree() ==> |delivered| == 1 && IsQuiescent()
    {
      var winner: Option<FaultType>;
      rolls, winner := RollFaults(tick);
      ShadowsBalance(old(log), ShadowRecords(tick, rolls, 5));
      ghost var rolled := log;
      delivered := ApplyWinner(tick, event, winner);
      TickBalances(rolled, tick, winner, event, windowRemaining);
      sent := sent + delivered;
    }

    /** What each fault does to the event of its tick, and what it logs. */
    method ApplyWinner(tick: nat, event: DiffEvent, winner: Option<FaultType>) returns (delivered: seq<DiffEvent>)
      requires IsQuiescent() && winner != Some(DelayedSnapshot)
      requires winner == Some(Disconnect) ==> config.disconnectMaxLen >= 1
      requires winner == Some(DropBurst) ==> config.dropBurstMaxLen >= 1
      modifies `held, `windowRemaining, `log
      ensures delivered == DeliveredBy(winner, event) && held == HeldBy(winner, event)
      ensures winner == None ==> delivered == [event] && held == None && log == old(log)
      ensures winner == Some(Disconnect) || winner == Some(DropBurst) ==>
        delivered == [] && held == None &&
        log == old(log) + [FaultRecord(tick, winner.value, WindowLen(windowRemaining + 1), false)]
      ensures winner == Some(DropOne) || winner == Some(Duplicate) ==>
        delivered == (if winner == Some(DropOne) then [] else [event, event]) && held == None &&
        log == old(log) + [FaultRecord(tick, winner.value, FinalIdOf(event.finalId), false)]
      ensures winner == Some(Reorder) ==>
        delivered == [] && held == Some(event) &&
        log == old(log) + [FaultRecord(tick, Reorder, HeldFinalId(event.finalId), false)]
      ensures winner == Some(Disconnect) || winner == Some(DropBurst) || windowRemaining == 0
      ensures !OpensWindow(winner) ==> windowRemaining == 0
      ensures winner == Some(Disconnect) ==> 0 <= windowRemaining < config.disconnectMaxLen
      ensures winner == Some(DropBurst) ==> 0 <= windowRemaining < config.dropBurstMaxLen
      ensures log == old(log) + RecordOf(tick, winner, event, windowRemaining)
    {
      match winner {
      case None =>
        delivered := [event];
      case Some(Disconnect) =>
        var length := RandInt(1, config.disconnectMaxLen);
        windowRemaining := length - 1;
        log := log + [FaultRecord(tick, Disconnect, WindowLen(length), false)];
        delivered := [];
      case Some(DropBurst) =>
        var length := RandInt(1, config.dropBurstMaxLen);
        windowRemaining := length - 1;
        log := log + [FaultRecord(tick, DropBurst, WindowLen(length), false)];
        delivered := [];
      case Some(DropOne) =>
        log := log + [FaultRecord(tick, DropOne, FinalIdOf(event.finalId), false)];
        delivered := [];
      case Some(Duplicate) =>
        log := log + [FaultRecord(tick, Duplicate, FinalIdOf(event.finalId), false)];
        delivered := [event, event];
      case Some(Reorder) =>
        held := Some(event);
        log := log + [FaultRecord(tick, Reorder, HeldFinalId(event.finalId), false)];
        delivered := [];
      }
    }

    /** deque.append with a maxlen: the oldest entry makes room. */
    method AppendSnapshot(entry: (int, SnapshotEvent), ghost h0: History)
      requires step > 0 && config.delayedSnapshotMaxSteps >= -1 && market.Valid()
      requires entry.0 == step && entry.1.lastUpdateId == market.updateId
      requires SnapshotBook(entry.1) == market.history[market.updateId]
      requires forall k :: k in h0 ==> k in market.history && market.history[k] == h0[k]
      requires var n := |snapshotHistory|;
        && n == (if step - 1 < config.delayedSnapshotMaxSteps then step - 1 else config.delayedSnapshotMaxSteps) + 1
        && forall i :: 0 <= i < n ==>
             && snapshotHistory[i].0 == step - 1 - (n - 1 - i)
             && snapshotHistory[i].1.lastUpdateId == market.updateId - 1 - (n - 1 - i)
             && snapshotHistory[i].1.lastUpdateId in h0
             && SnapshotBook(snapshotHistory[i].1) == h0[snapshotHistory[i].1.lastUpdateId]
      modifies `snapshotHistory
      ensures HistoryValid(market.history, market.updateId)
    {
      if |snapshotHistory| == config.delayedSnapshotMaxSteps + 1 {
        snapshotHistory := (snapshotHistory + [entry])[1..];
      } else {
        snapshotHistory := snapshotHistory + [entry];
      }
    }

    /** A delayed snapshot is logged, and counts for no delivery. */
    method LogDelay(agedStep: int, lookback: int)
      requires Valid()
      modifies `log
      ensures Valid()
      ensures log == old(log) + [FaultRecord(step, DelayedSnapshot, ServedSnapshot(agedStep, lookback), false)]
    {
      ghost var entry := FaultRecord(step, DelayedSnapshot, ServedSnapshot(agedStep, lookback), false);
      EntryBalances(log, entry, windowRemaining, held);
      log := log + [FaultRecord(step, DelayedSnapshot, ServedSnapshot(agedStep, lookback), false)];
    }

    /** The k-th last snapshot is k ids old, and true. */
    lemma HistoryAt(k: nat)
      requires market.Valid() && HistoryValid(market.history, market.updateId) && k < |snapshotHistory|
      ensures var (at, snapshot) := snapshotHistory[|snapshotHistory| - 1 - k];
        && at == step - k && snapshot.lastUpdateId == market.updateId - k && snapshot.lastUpdateId in market.history
        && SnapshotBook(snapshot) == market.history[snapshot.lastUpdateId]
    {
    }

    /** A true snapshot of the market as it was this many ids ago. */
    ghost predicate TrueAt(snapshot: SnapshotEvent, age: int)
      reads market
    {
      && snapshot.lastUpdateId == market.updateId - age && snapshot.lastUpdateId in market.history
      && SnapshotBook(snapshot) == market.history[snapshot.lastUpdateId]
    }

    /** The snapshot of a drawn age, at least one, and the record of it. */
    method ServeAged() returns (snapshot: SnapshotEvent, ghost age: int)
      requires Valid() && |snapshotHistory| > 1
      modifies this`log
      ensures Valid() && TrueAt(snapshot, age)
      ensures 1 <= age <= config.delayedSnapshotMaxSteps && age <= step
      ensures log == old(log) + [FaultRecord(step, DelayedSnapshot, ServedSnapshot(step - age, age), false)]
    {
      var n := |snapshotHistory|;
      var maxLookback := if config.delayedSnapshotMaxSteps < n - 1 then config.delayedSnapshotMaxSteps else n - 1;
      var lookback := RandInt(1, maxLookback);
      HistoryAt(lookback);
      var (agedStep, agedSnapshot) := snapshotHistory[n - 1 - lookback];
      LogDelay(agedStep, lookback);
      return agedSnapshot, lookback;
    }

    /** Serves the current snapshot or, when the delay fault is rolled, one that is at least one
        and at most delayedSnapshotMaxSteps updates old. Either is a true snapshot. */
    method RequestSnapshot() returns (snapshot: SnapshotEvent, ghost age: int)
      requires Valid() && config.Usable()
      modifies this`log
      ensures Valid() && TrueAt(snapshot, age)
      ensures if age == 0 then log == old(log)
              else
                && 1 <= age <= config.delayedSnapshotMaxSteps && age <= step && config.delayedSnapshotProb > 0.0
                && log == old(log) + [FaultRecord(step, DelayedSnapshot, ServedSnapshot(step - age, age), false)]
    {
      if config.delayedSnapshotProb > 0.0 && |snapshotHistory| > 1 {
        var delayed := Chance(config.delayedSnapshotProb);
        if delayed {
          snapshot, age := ServeAged();
          return;
        }
      }
      snapshot := ServeCurrent();
      age := 0;
    }

    method ServeCurrent() returns (snapshot: SnapshotEvent)
      requires Valid() && config.Usable()
      ensures TrueAt(snapshot, 0)
    {
      HistoryAt(0);
      return snapshotHistory[|snapshotHistory| - 1].1;
    }
  }

  /** Appending to the history does not change what an earlier event is faithful to. */
  lemma OldEventStaysFaithful(h0: History, h: History, last: int, e: DiffEvent)
    requires forall k :: k in h0 ==> k in h && h[k] == h0[k]
    requires forall k :: k in h && k !in h0 ==> k > last
    requires Faithful(h0, e) && e.finalId <= last
    ensures Faithful(h, e)
  {
    forall p ensures FaithfulAt(h, e, p) {
      assert FaithfulAt(h0, e, p);
    }
  }
}
