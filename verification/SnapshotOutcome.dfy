// Exactly what load_snapshot does to a waiting engine, for every buffer.
module SnapshotOutcome {
  import opened BookTypes
  import opened Engine
  import opened Synchronisation

  /** Each event starts where the one before it ended; the first starts at the given id. */
  predicate ChainedFrom(id: int, events: seq<DiffEvent>)
    decreases |events|
  {
    events == [] || (events[0].prevId == id && ChainedFrom(events[0].finalId, events[1..]))
  }

  function LastId(id: int, events: seq<DiffEvent>): int {
    if events == [] then id else events[|events| - 1].finalId
  }

  function Max(a: int, b: int): int {
    if a < b then b else a
  }

  /** The events up to j chain, and event j does not continue them. */
  predicate IsFirstGap(id: int, events: seq<DiffEvent>, j: int) {
    0 <= j < |events| && ChainedFrom(id, events[..j]) && events[j].prevId != LastId(id, events[..j])
  }

  /** Replay applies everything when the events chain; otherwise it keeps the first event that does
      not, and nothing else: the events behind it are dropped. */
  lemma {:induction false} ReplayExact(s: EngineState, id: int, rest: seq<DiffEvent>)
    requires s.lastAppliedId == Some(id) && s.state == Live && s.buffer == []
    ensures var (end, status) := Replay(s, rest);
      if ChainedFrom(id, rest) then
        status == Applied && end.state == Live && end.lastAppliedId == Some(LastId(id, rest)) && end.buffer == []
      else
        && status == GapDetected && end.state == Resyncing && end.lastAppliedId == None && end.book == EMPTY_BOOK
        && exists j :: IsFirstGap(id, rest, j) && end.buffer == [rest[j]]
    decreases |rest|
  {
    if rest != [] {
      if rest[0].prevId != id {
        assert IsFirstGap(id, rest, 0);
      } else {
        var next := ApplyLive(s, rest[0]).0;
        var tail := rest[1..];
        ReplayExact(next, rest[0].finalId, tail);
        if !ChainedFrom(rest[0].finalId, tail) {
          var j :| IsFirstGap(rest[0].finalId, tail, j) && Replay(next, tail).0.buffer == [tail[j]];
          assert rest[..j + 1][1..] == tail[..j];
          assert IsFirstGap(id, rest, j + 1);
        }
      }
    }
  }

  /** The three outcomes of load_snapshot, each with the exact condition for it. */
  lemma LoadOutcomeExact(s: EngineState, snapshot: SnapshotEvent)
    requires s.state != Live
    ensures var id := snapshot.lastUpdateId;
      var survivors := Survivors(s.buffer, id);
      var (end, outcome) := LoadSnapshot(s, snapshot);
      && (outcome == Returned(SnapshotStale) <==> survivors != [] && !Straddles(survivors[0], id))
      && (outcome == Returned(SnapshotStale) ==> end == s)
      && (outcome == Returned(Applied) <==>
            survivors == [] ||
            (Straddles(survivors[0], id) && ChainedFrom(survivors[0].finalId, survivors[1..])))
      && (outcome == Returned(Applied) ==>
            end.state == Live && end.lastAppliedId == Some(LastId(id, survivors)) && end.buffer == [])
      && (outcome == Returned(GapDetected) ==>
            && survivors != [] && end.state == Resyncing
            && exists j :: IsFirstGap(survivors[0].finalId, survivors[1..], j) && end.buffer == [survivors[j + 1]])
      && outcome in {Returned(Applied), Returned(SnapshotStale), Returned(GapDetected)}
  {
    var id := snapshot.lastUpdateId;
    var survivors := Survivors(s.buffer, id);
    if survivors != [] && Straddles(survivors[0], id) {
      var first := survivors[0];
      var live := EngineState(ApplyToBook(SnapshotBook(snapshot), first), Live, Some(first.finalId), []);
      ReplayExact(live, first.finalId, survivors[1..]);
    }
  }

  /** A buffer with no event lost: each event starts where the one before it ended. */
  predicate UnbrokenChain(buffer: seq<DiffEvent>) {
    && (forall i :: 0 <= i < |buffer| ==> buffer[i].prevId < buffer[i].finalId)
    && (forall i, j :: 0 <= i && j == i + 1 < |buffer| ==> buffer[j].prevId == buffer[i].finalId)
  }

  lemma {:induction false} FinalIdsIncrease(buffer: seq<DiffEvent>, i: nat, j: nat)
    requires UnbrokenChain(buffer) && i <= j < |buffer|
    ensures buffer[i].finalId <= buffer[j].finalId
    decreases j - i
  {
    if i < j {
      FinalIdsIncrease(buffer, i, j - 1);
    }
  }

  lemma {:induction false} SurvivorsAreSuffix(buffer: seq<DiffEvent>, id: int, k: nat)
    requires k <= |buffer|
    requires forall i :: 0 <= i < |buffer| ==> (buffer[i].finalId > id <==> i >= k)
    ensures Survivors(buffer, id) == buffer[k..]
    decreases |buffer|
  {
    if buffer != [] {
      var n := |buffer| - 1;
      var init, m := buffer[..n], if k <= n then k else n;
      SurvivorsAreSuffix(init, id, m);
      assert buffer[n].finalId > id <==> n >= k;
      assert buffer[k..] == if k <= n then init[m..] + [buffer[n]] else [];
    }
  }

  /** Of an unbroken chain, the survivors of a snapshot are a suffix, whose first event has the
      snapshot inside its interval unless the snapshot predates the whole buffer. */
  lemma SurvivorsOfChain(buffer: seq<DiffEvent>, id: int) returns (k: nat)
    requires UnbrokenChain(buffer)
    ensures k <= |buffer| && Survivors(buffer, id) == buffer[k..]
    ensures k > 0 ==> buffer[k - 1].finalId <= id
    ensures k < |buffer| ==> buffer[k].finalId > id
  {
    k := 0;
    while k < |buffer| && buffer[k].finalId <= id
      invariant k <= |buffer| && forall i :: 0 <= i < k ==> buffer[i].finalId <= id
    {
      k := k + 1;
    }
    forall i | k <= i < |buffer| ensures buffer[i].finalId > id {
      FinalIdsIncrease(buffer, k, i);
    }
    SurvivorsAreSuffix(buffer, id, k);
  }

  lemma {:induction false} ChainSuffixIsChained(buffer: seq<DiffEvent>, k: nat)
    requires UnbrokenChain(buffer) && 0 < k <= |buffer|
    ensures ChainedFrom(buffer[k - 1].finalId, buffer[k..])
    decreases |buffer| - k
  {
    if k < |buffer| {
      ChainSuffixIsChained(buffer, k + 1);
      assert buffer[k..][1..] == buffer[k + 1..];
    }
  }

  lemma SuffixFits(buffer: seq<DiffEvent>, id: int, k: nat, survivors: seq<DiffEvent>)
    requires UnbrokenChain(buffer) && buffer != [] && k <= |buffer| && survivors == buffer[k..]
    requires k > 0 ==> buffer[k - 1].finalId <= id
    requires k < |buffer| ==> buffer[k].finalId > id
    ensures (k > 0 ==> buffer[0].prevId <= id) && (k == |buffer| ==> LastId(id, buffer) <= id)
    ensures k < |buffer| ==> LastId(id, buffer) > id && (Straddles(buffer[k], id) <==> buffer[0].prevId <= id)
    ensures k < |buffer| ==> ChainedFrom(survivors[0].finalId, survivors[1..])
  {
    if k > 0 {
      FinalIdsIncrease(buffer, 0, k - 1);
    }
    if k < |buffer| {
      FinalIdsIncrease(buffer, k, |buffer| - 1);
      ChainSuffixIsChained(buffer, k + 1);
      assert survivors[1..] == buffer[k + 1..];
      assert k > 0 ==> buffer[k].prevId == buffer[k - 1].finalId;
    }
  }

  /** The survivors of an unbroken chain pass every check exactly when the snapshot does not
      predate the buffer. */
  lemma SurvivorsOfChainFit(buffer: seq<DiffEvent>, id: int, survivors: seq<DiffEvent>)
    requires UnbrokenChain(buffer) && survivors == Survivors(buffer, id)
    ensures buffer != [] && id < buffer[0].prevId ==> survivors != [] && !Straddles(survivors[0], id)
    ensures buffer != [] && id >= buffer[0].prevId && survivors != [] ==>
      Straddles(survivors[0], id) && ChainedFrom(survivors[0].finalId, survivors[1..])
    ensures buffer == [] || id >= buffer[0].prevId ==> LastId(id, survivors) == Max(id, LastId(id, buffer))
  {
    if buffer != [] {
      var k := SurvivorsOfChain(buffer, id);
      SuffixFits(buffer, id, k, survivors);
    }
  }

  /** With no event lost, the outcome depends on one comparison: the snapshot is refused exactly
      when it predates the first buffered event, and otherwise the engine goes LIVE with the
      exchange's book at the later of the snapshot and the last buffered event. */
  lemma LoadOnUnbrokenChain(h: History, s: EngineState, snapshot: SnapshotEvent)
    requires Safe(h, WHOLE_BOOK, s) && s.state != Live
    requires TrueSnapshot(h, WHOLE_BOOK, snapshot)
    requires UnbrokenChain(s.buffer)
    ensures var id := snapshot.lastUpdateId;
      var (end, outcome) := LoadSnapshot(s, snapshot);
      if s.buffer != [] && id < s.buffer[0].prevId then
        outcome == Returned(SnapshotStale) && end == s
      else
        var checkpoint := Max(id, LastId(id, s.buffer));
        && outcome == Returned(Applied) && end.state == Live
        && end.lastAppliedId == Some(checkpoint) && checkpoint in h && end.book == h[checkpoint]
  {
    SurvivorsOfChainFit(s.buffer, snapshot.lastUpdateId, Survivors(s.buffer, snapshot.lastUpdateId));
    LoadOutcomeExact(s, snapshot);
    LoadSnapshotSafe(h, WHOLE_BOOK, s, snapshot);
    var end := LoadSnapshot(s, snapshot).0;
    if end.state == Live {
      AgreeOnWholeBook(end.book, h[end.lastAppliedId.value]);
    }
  }

  /** A snapshot at least as new as every buffered event is always accepted, and decides the
      checkpoint by itself. */
  lemma LoadOfNewestSnapshot(s: EngineState, snapshot: SnapshotEvent)
    requires s.state != Live
    requires forall e :: e in s.buffer ==> e.finalId <= snapshot.lastUpdateId
    ensures LoadSnapshot(s, snapshot)
         == (EngineState(SnapshotBook(snapshot), Live, Some(snapshot.lastUpdateId), []), Returned(Applied))
  {
    SurvivorsAreBuffered(s.buffer, snapshot.lastUpdateId);
    var survivors := Survivors(s.buffer, snapshot.lastUpdateId);
    assert forall i :: 0 <= i < |survivors| ==> survivors[i] !in survivors;
  }

  /** The events delivered one after the other. */
  function Deliveries(events: seq<DiffEvent>): seq<Input> {
    if events == [] then [] else [Deliver(events[0])] + Deliveries(events[1..])
  }

  /** While it waits, the engine keeps every event delivered, in order, and changes nothing else. */
  lemma {:induction false} WaitingBuffersAll(s: EngineState, events: seq<DiffEvent>)
    requires s.state != Live
    ensures Run(s, Deliveries(events)) == s.(buffer := s.buffer + events)
    decreases |events|
  {
    if events == [] {
      assert s.buffer + events == s.buffer;
    } else {
      WaitingBuffersAll(s.(buffer := s.buffer + [events[0]]), events[1..]);
      assert s.buffer + [events[0]] + events[1..] == s.buffer + events;
      assert Deliveries(events)[1..] == Deliveries(events[1..]);
    }
  }

  /** A LIVE engine follows every further event that chains, to the exchange's book at the last one. */
  lemma {:induction false} LiveFollowsChain(h: History, s: EngineState, events: seq<DiffEvent>)
    requires Safe(h, WHOLE_BOOK, s) && s.state == Live && forall e :: e in events ==> Faithful(h, e)
    requires ChainedFrom(s.lastAppliedId.value, events)
    ensures var end, id := Run(s, Deliveries(events)), LastId(s.lastAppliedId.value, events);
      && Safe(h, WHOLE_BOOK, end) && end.state == Live && end.lastAppliedId == Some(id)
      && id in h && end.book == h[id]
    decreases |events|
  {
    if events == [] {
      AgreeOnWholeBook(s.book, h[s.lastAppliedId.value]);
    } else {
      ApplyLiveSafe(h, WHOLE_BOOK, s, events[0]);
      LiveFollowsChain(h, Handle(s, Deliver(events[0])), events[1..]);
      assert Deliveries(events)[1..] == Deliveries(events[1..]);
    }
  }

  /** The inputs of one synchronisation: a reset, deliveries while the engine waits, and a snapshot. */
  function SyncInputs(events: seq<DiffEvent>, snapshot: SnapshotEvent): seq<Input> {
    [Reset] + (Deliveries(events) + [Fetch(snapshot, WHOLE_BOOK)])
  }

  lemma SynchronisationRun(s: EngineState, events: seq<DiffEvent>, snapshot: SnapshotEvent)
    ensures Run(s, SyncInputs(events, snapshot)) == LoadSnapshot(Invalidate(s).(buffer := events), snapshot).0
  {
    var rest := Deliveries(events) + [Fetch(snapshot, WHOLE_BOOK)];
    assert SyncInputs(events, snapshot)[1..] == rest;
    RunConcat(Invalidate(s), Deliveries(events), [Fetch(snapshot, WHOLE_BOOK)]);
    WaitingBuffersAll(Invalidate(s), events);
    assert [] + events == events;
    var waiting := Invalidate(s).(buffer := events);
    assert Run(waiting, [Fetch(snapshot, WHOLE_BOOK)]) == Run(Handle(waiting, Fetch(snapshot, WHOLE_BOOK)), []);
  }

  /** From delivery to checkpoint. Whatever state the engine was in: after a reset, an unbroken chain of
      events received while it waits, and a snapshot that does not predate them, it is LIVE with the
      exchange's book at the later of the snapshot and the last event. If the snapshot does predate
      them, it goes on waiting, and has lost none of them. */
  lemma SynchronisesFromAnyState(h: History, s: EngineState, events: seq<DiffEvent>, snapshot: SnapshotEvent)
    requires UnbrokenChain(events) && (forall e :: e in events ==> Faithful(h, e))
    requires TrueSnapshot(h, WHOLE_BOOK, snapshot)
    ensures var end, id := Run(s, SyncInputs(events, snapshot)), snapshot.lastUpdateId;
      if events != [] && id < events[0].prevId then
        end.state != Live && end.buffer == events && end.book == EMPTY_BOOK && end.lastAppliedId == None
      else
        var checkpoint :=
          if events == [] || events[|events| - 1].finalId < id then id else events[|events| - 1].finalId;
        && end.state == Live && end.lastAppliedId == Some(checkpoint) && end.buffer == []
        && checkpoint in h && end.book == h[checkpoint]
  {
    var waiting := Invalidate(s).(buffer := events);
    SynchronisationRun(s, events, snapshot);
    LoadOnUnbrokenChain(h, waiting, snapshot);
    LoadSnapshotSafe(h, WHOLE_BOOK, waiting, snapshot);
  }

  /** The drop is real: with a gap in the middle of the buffer, the event behind the gapping one
      is gone after the replay, although it chains to it. */
  lemma ReplayGapDropsLaterEvents() returns (s: EngineState, snapshot: SnapshotEvent)
    ensures s.state != Live && |s.buffer| == 3 && s.buffer[1].finalId == s.buffer[2].prevId
    ensures var (end, outcome) := LoadSnapshot(s, snapshot);
      outcome == Returned(GapDetected) && end.buffer == [s.buffer[1]]
  {
    var a, b, c := DiffEvent(0, 1, [], []), DiffEvent(2, 3, [], []), DiffEvent(3, 4, [], []);
    s := INITIAL.(buffer := [a, b, c]);
    snapshot := SnapshotEvent(0, [], []);
    assert s.buffer[..2][..1] == [a] && s.buffer[..2] == [a, b] && [a][..0] == [];
    assert Survivors([a], 0) == [a];
    assert Survivors([a, b], 0) == [a, b];
    assert Survivors(s.buffer, 0) == [a, b, c];
  }
}
