// BookEngine (src/l2_pipeline/book/engine.py): the synchronisation state machine. The functions
// are its specification on values; the class is the code, field by field and branch by branch.
module Engine {
  import opened BookTypes
  import opened Levels
  import opened TopLevels

  datatype EngineState =
    EngineState(book: Book, state: BookState, lastAppliedId: Option<int>, buffer: seq<DiffEvent>)

  const INITIAL := EngineState(EMPTY_BOOK, Buffering, None, [])

  /** load_snapshot either raises ValueError or returns a status. */
  datatype LoadOutcome = RaisedWhileLive | Returned(status: ApplyStatus)

  function ApplyToBook(book: Book, event: DiffEvent): Book {
    Book(ApplyLevels(book.bids, event.bids), ApplyLevels(book.asks, event.asks))
  }

  function SnapshotBook(snapshot: SnapshotEvent): Book {
    Book(LadderOf(snapshot.bids), LadderOf(snapshot.asks))
  }

  function ApplyLive(s: EngineState, event: DiffEvent): (EngineState, ApplyStatus) {
    if Some(event.prevId) != s.lastAppliedId then
      (EngineState(EMPTY_BOOK, Resyncing, None, [event]), GapDetected)
    else
      (s.(book := ApplyToBook(s.book, event), lastAppliedId := Some(event.finalId)), Applied)
  }

  function ApplyEvent(s: EngineState, event: DiffEvent): (EngineState, ApplyStatus) {
    if s.state != Live then (s.(buffer := s.buffer + [event]), Buffered) else ApplyLive(s, event)
  }

  /** The buffered events a snapshot at this id does not already contain, in arrival order. */
  function Survivors(buffer: seq<DiffEvent>, lastUpdateId: int): seq<DiffEvent> {
    if buffer == [] then []
    else
      var n := |buffer| - 1;
      Survivors(buffer[..n], lastUpdateId) + if buffer[n].finalId > lastUpdateId then [buffer[n]] else []
  }

  predicate Straddles(event: DiffEvent, lastUpdateId: int) {
    event.prevId <= lastUpdateId < event.finalId
  }

  /** Strict chaining over the rest of the buffer, abandoned at the first gap. */
  function Replay(s: EngineState, rest: seq<DiffEvent>): (EngineState, ApplyStatus)
    decreases |rest|
  {
    if rest == [] then (s, Applied)
    else
      var (next, status) := ApplyLive(s, rest[0]);
      if status == GapDetected then (next, GapDetected) else Replay(next, rest[1..])
  }

  function LoadSnapshot(s: EngineState, snapshot: SnapshotEvent): (EngineState, LoadOutcome) {
    if s.state == Live then (s, RaisedWhileLive)
    else
      var id := snapshot.lastUpdateId;
      var survivors := Survivors(s.buffer, id);
      if survivors != [] && !Straddles(survivors[0], id) then (s, Returned(SnapshotStale))
      else if survivors == [] then
        (EngineState(SnapshotBook(snapshot), Live, Some(id), []), Returned(Applied))
      else
        var first := survivors[0];
        var live := EngineState(ApplyToBook(SnapshotBook(snapshot), first), Live, Some(first.finalId), []);
        var (end, status) := Replay(live, survivors[1..]);
        (end, Returned(status))
  }

  function Invalidate(s: EngineState): EngineState {
    EngineState(EMPTY_BOOK, if s.state == Buffering then Buffering else Resyncing, None, [])
  }

  class BookEngine {
    const depthLevels: int
    var bids: Ladder
    var asks: Ladder
    var state: BookState
    var lastAppliedId: Option<int>
    var buffer: seq<DiffEvent>

    function View(): EngineState
      reads this
    {
      EngineState(Book(bids, asks), state, lastAppliedId, buffer)
    }

    constructor (depthLevels: int)
      ensures this.depthLevels == depthLevels && View() == INITIAL
      ensures bids == asks == map[] && state == Buffering && lastAppliedId == None && buffer == []
    {
      this.depthLevels := depthLevels;
      bids, asks := map[], map[];
      state, lastAppliedId, buffer := Buffering, None, [];
    }

    method ApplyEventTo(event: DiffEvent) returns (status: ApplyStatus)
      modifies this
      ensures (View(), status) == ApplyEvent(old(View()), event)
      ensures old(state) != Live ==>
        && status == Buffered && buffer == old(buffer) + [event]
        && state == old(state) && lastAppliedId == old(lastAppliedId) && bids == old(bids) && asks == old(asks)
      ensures old(state) == Live && old(lastAppliedId) == Some(event.prevId) ==>
        && status == Applied && state == Live && lastAppliedId == Some(event.finalId) && buffer == old(buffer)
        && bids == ApplyLevels(old(bids), event.bids) && asks == ApplyLevels(old(asks), event.asks)
      ensures old(state) == Live && old(lastAppliedId) != Some(event.prevId) ==>
        && status == GapDetected && state == Resyncing && lastAppliedId == None && buffer == [event]
        && bids == asks == map[]
    {
      if state != Live {
        buffer := buffer + [event];
        return Buffered;
      }
      status := ApplyLiveTo(event);
    }

    method ApplyLiveTo(event: DiffEvent) returns (status: ApplyStatus)
      modifies this
      ensures (View(), status) == ApplyLive(old(View()), event)
    {
      if Some(event.prevId) != lastAppliedId {
        state := Resyncing;
        bids, asks := map[], map[];
        lastAppliedId := None;
        buffer := [event];
        return GapDetected;
      }
      bids := ApplyLevelsInPlace(bids, event.bids);
      asks := ApplyLevelsInPlace(asks, event.asks);
      lastAppliedId := Some(event.finalId);
      return Applied;
    }

    method SurvivorsOf(lastUpdateId: int) returns (survivors: seq<DiffEvent>)
      ensures survivors == Survivors(buffer, lastUpdateId)
    {
      survivors := [];
      for i := 0 to |buffer|
        invariant survivors == Survivors(buffer[..i], lastUpdateId)
      {
        assert buffer[..i + 1][..i] == buffer[..i];
        if buffer[i].finalId > lastUpdateId {
          survivors := survivors + [buffer[i]];
        }
      }
      assert buffer[..|buffer|] == buffer;
    }

    method LoadSnapshotInto(snapshot: SnapshotEvent) returns (outcome: LoadOutcome)
      modifies this
      ensures (View(), outcome) == LoadSnapshot(old(View()), snapshot)
      ensures outcome == RaisedWhileLive <==> old(state) == Live
      ensures outcome == RaisedWhileLive || outcome == Returned(SnapshotStale) ==> View() == old(View())
    {
      if state == Live {
        return RaisedWhileLive;
      }
      var survivors := SurvivorsOf(snapshot.lastUpdateId);
      if survivors != [] {
        var first := survivors[0];
        if !(first.prevId <= snapshot.lastUpdateId < first.finalId) {
          return Returned(SnapshotStale);
        }
      }
      bids := LadderOf(snapshot.bids);
      asks := LadderOf(snapshot.asks);
      buffer := [];
      state := Live;
      if survivors == [] {
        lastAppliedId := Some(snapshot.lastUpdateId);
        return Returned(Applied);
      }
      var first, rest := survivors[0], survivors[1..];
      bids := ApplyLevelsInPlace(bids, first.bids);
      asks := ApplyLevelsInPlace(asks, first.asks);
      lastAppliedId := Some(first.finalId);
      ghost var live := View();
      for i := 0 to |rest|
        invariant Replay(View(), rest[i..]) == Replay(live, rest)
      {
        assert rest[i..][1..] == rest[i + 1..];
        var status := ApplyLiveTo(rest[i]);
        if status == GapDetected {
          return Returned(GapDetected);
        }
      }
      return Returned(Applied);
    }

    method FullBook() returns (book: Book)
      ensures book == View().book
    {
      return Book(bids, asks);
    }

    /** The n best levels of each side, with depthLevels standing in for a missing n. */
    method BestLevels(n: Option<int>) returns (topBids: seq<PriceLevel>, topAsks: seq<PriceLevel>)
      ensures var limit := if n.Some? then n.value else depthLevels;
        && IsTop(bids, true, SliceLength(|bids|, limit), topBids)
        && IsTop(asks, false, SliceLength(|asks|, limit), topAsks)
        && (limit >= 0 ==> |topBids| == (if limit < |bids| then limit else |bids|)
                           && |topAsks| == (if limit < |asks| then limit else |asks|))
    {
      var limit := if n.Some? then n.value else depthLevels;
      topBids := SortedTop(bids, true, limit);
      topAsks := SortedTop(asks, false, limit);
    }

    method InvalidateBook()
      modifies this
      ensures View() == Invalidate(old(View()))
      ensures bids == asks == map[] && lastAppliedId == None && buffer == []
      ensures state == if old(state) == Buffering then Buffering else Resyncing
    {
      if state != Buffering {
        state := Resyncing;
      }
      bids, asks := map[], map[];
      lastAppliedId := None;
      buffer := [];
    }
  }
}
