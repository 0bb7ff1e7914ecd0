// What the engine is for: however the network drops, repeats or reorders events, and however old
// the snapshots are, a LIVE book is the exchange's book at the engine's checkpoint.
module Synchronisation {
  import opened BookTypes
  import opened Levels
  import opened Engine

  /** The exchange's own book at each update id. The ids may be sparse. */
  type History = map<int, Book>

  /** The prices a depth-limited snapshot is complete for: bids from bidFloor up and asks up to
      askCeil, a missing bound meaning the whole side. */
  datatype Band = Band(bidFloor: Option<Price>, askCeil: Option<Price>) {
    predicate HasBid(p: Price) {
      bidFloor.None? || p >= bidFloor.value
    }

    predicate HasAsk(p: Price) {
      askCeil.None? || p <= askCeil.value
    }
  }

  const WHOLE_BOOK := Band(None, None)

  ghost predicate Agree(a: Book, b: Book, band: Band) {
    && (forall p :: band.HasBid(p) ==> Lookup(a.bids, p) == Lookup(b.bids, p))
    && (forall p :: band.HasAsk(p) ==> Lookup(a.asks, p) == Lookup(b.asks, p))
  }

  /** At price p the levels lead from any book of the interval to the book at finalId. */
  ghost predicate FaithfulAt(h: History, event: DiffEvent, p: Price)
    requires event.finalId in h
  {
    && (match LastQty(event.bids, p)
        case Some(q) => Lookup(h[event.finalId].bids, p) == Effect(q)
        case None => forall k :: k in h && event.prevId <= k <= event.finalId
                                 ==> Lookup(h[k].bids, p) == Lookup(h[event.finalId].bids, p))
    && (match LastQty(event.asks, p)
        case Some(q) => Lookup(h[event.finalId].asks, p) == Effect(q)
        case None => forall k :: k in h && event.prevId <= k <= event.finalId
                                 ==> Lookup(h[k].asks, p) == Lookup(h[event.finalId].asks, p))
  }

  /** A diff an exchange may send: every price it names has the named value at finalId, and every
      price it does not name is constant from prevId to finalId. */
  ghost predicate Faithful(h: History, event: DiffEvent) {
    event.prevId <= event.finalId && event.finalId in h && forall p :: FaithfulAt(h, event, p)
  }

  ghost predicate TrueSnapshot(h: History, band: Band, snapshot: SnapshotEvent) {
    snapshot.lastUpdateId in h && Agree(SnapshotBook(snapshot), h[snapshot.lastUpdateId], band)
  }

  /** The invariant of every run. */
  ghost predicate Safe(h: History, band: Band, s: EngineState) {
    && (s.state == Live ==>
          && s.lastAppliedId.Some? && s.lastAppliedId.value in h
          && Agree(s.book, h[s.lastAppliedId.value], band)
          && s.buffer == [])
    && (s.state != Live ==> s.book == EMPTY_BOOK && s.lastAppliedId == None)
    && (forall e :: e in s.buffer ==> Faithful(h, e))
  }

  lemma AgreeOnWholeBook(a: Book, b: Book)
    requires Agree(a, b, WHOLE_BOOK)
    ensures a == b
  {
    forall p
      ensures Lookup(a.bids, p) == Lookup(b.bids, p) && Lookup(a.asks, p) == Lookup(b.asks, p)
    {
      assert WHOLE_BOOK.HasBid(p) && WHOLE_BOOK.HasAsk(p);
    }
    SameLookupsSameLadder(a.bids, b.bids);
    SameLookupsSameLadder(a.asks, b.asks);
  }

  /** Straddle absorption: a faithful event carries a book that is right anywhere in its interval
      to one that is right at its end. */
  lemma StraddleAbsorbed(h: History, band: Band, book: Book, at: int, event: DiffEvent)
    requires Faithful(h, event)
    requires at in h && event.prevId <= at <= event.finalId
    requires Agree(book, h[at], band)
    ensures Agree(ApplyToBook(book, event), h[event.finalId], band)
  {
    var next := ApplyToBook(book, event);
    forall p
      ensures band.HasBid(p) ==> Lookup(next.bids, p) == Lookup(h[event.finalId].bids, p)
      ensures band.HasAsk(p) ==> Lookup(next.asks, p) == Lookup(h[event.finalId].asks, p)
    {
      assert FaithfulAt(h, event, p);
      LookupApply(book.bids, event.bids, p);
      LookupApply(book.asks, event.asks, p);
    }
  }

  /** The whole-book form: applied to the book at any id of the interval, the event gives exactly
      the book at its final id. */
  lemma StraddleIsExact(h: History, at: int, event: DiffEvent)
    requires Faithful(h, event)
    requires at in h && event.prevId <= at <= event.finalId
    ensures ApplyToBook(h[at], event) == h[event.finalId]
  {
    StraddleAbsorbed(h, WHOLE_BOOK, h[at], at, event);
    AgreeOnWholeBook(ApplyToBook(h[at], event), h[event.finalId]);
  }

  /** Events that report one step of the market exactly are faithful to its history. */
  lemma ExactStepIsFaithful(h: History, event: DiffEvent)
    requires event.finalId == event.prevId + 1 && event.prevId in h && event.finalId in h
    requires ApplyToBook(h[event.prevId], event) == h[event.finalId]
    ensures Faithful(h, event)
  {
    forall p ensures FaithfulAt(h, event, p) {
      LookupApply(h[event.prevId].bids, event.bids, p);
      LookupApply(h[event.prevId].asks, event.asks, p);
    }
  }

  lemma {:induction false} SurvivorsAreBuffered(buffer: seq<DiffEvent>, id: int)
    ensures forall e :: e in Survivors(buffer, id) <==> e in buffer && e.finalId > id
  {
    if buffer != [] {
      var n := |buffer| - 1;
      SurvivorsAreBuffered(buffer[..n], id);
      assert buffer == buffer[..n] + [buffer[n]];
    }
  }

  lemma ApplyLiveSafe(h: History, band: Band, s: EngineState, event: DiffEvent)
    requires Safe(h, band, s) && s.state == Live && Faithful(h, event)
    ensures Safe(h, band, ApplyLive(s, event).0)
    ensures (ApplyLive(s, event).1 == Applied) == (ApplyLive(s, event).0.state == Live)
  {
    if Some(event.prevId) == s.lastAppliedId {
      StraddleAbsorbed(h, band, s.book, event.prevId, event);
    }
  }

  lemma {:induction false} ReplaySafe(h: History, band: Band, s: EngineState, rest: seq<DiffEvent>)
    requires Safe(h, band, s) && s.state == Live
    requires forall e :: e in rest ==> Faithful(h, e)
    ensures Safe(h, band, Replay(s, rest).0)
    ensures Replay(s, rest).0.state == if Replay(s, rest).1 == Applied then Live else Resyncing
    decreases |rest|
  {
    if rest != [] {
      ApplyLiveSafe(h, band, s, rest[0]);
      var (next, status) := ApplyLive(s, rest[0]);
      if status == Applied {
        ReplaySafe(h, band, next, rest[1..]);
      }
    }
  }

  lemma LoadSnapshotSafe(h: History, band: Band, s: EngineState, snapshot: SnapshotEvent)
    requires Safe(h, band, s) && TrueSnapshot(h, band, snapshot)
    ensures Safe(h, band, LoadSnapshot(s, snapshot).0)
    ensures var (next, outcome) := LoadSnapshot(s, snapshot);
      && (s.state != Live ==> (outcome == Returned(Applied)) == (next.state == Live))
      && next.state in {s.state, Live, Resyncing}
  {
    if s.state != Live {
      var id := snapshot.lastUpdateId;
      var survivors := Survivors(s.buffer, id);
      SurvivorsAreBuffered(s.buffer, id);
      if survivors != [] && Straddles(survivors[0], id) {
        var first := survivors[0];
        StraddleAbsorbed(h, band, SnapshotBook(snapshot), id, first);
        var live := EngineState(ApplyToBook(SnapshotBook(snapshot), first), Live, Some(first.finalId), []);
        ReplaySafe(h, band, live, survivors[1..]);
      }
    }
  }

  /** What an arbitrary network and an arbitrary client may do to the engine. A snapshot comes with
      the band of prices it is complete for. */
  datatype Input = Deliver(event: DiffEvent) | Fetch(snapshot: SnapshotEvent, cover: Band) | Reset

  function Handle(s: EngineState, input: Input): EngineState {
    match input
    case Deliver(event) => ApplyEvent(s, event).0
    case Fetch(snapshot, _) => LoadSnapshot(s, snapshot).0
    case Reset => Invalidate(s)
  }

  function Run(s: EngineState, inputs: seq<Input>): EngineState
    decreases |inputs|
  {
    if inputs == [] then s else Run(Handle(s, inputs[0]), inputs[1..])
  }

  /** The band of the snapshot the book was loaded from: an accepted snapshot brings its own. */
  function NextCover(s: EngineState, cover: Option<Band>, input: Input): Option<Band> {
    if input.Fetch? && LoadSnapshot(s, input.snapshot).1 == Returned(Applied) then Some(input.cover) else cover
  }

  function LastCover(s: EngineState, cover: Option<Band>, inputs: seq<Input>): Option<Band>
    decreases |inputs|
  {
    if inputs == [] then cover else LastCover(Handle(s, inputs[0]), NextCover(s, cover, inputs[0]), inputs[1..])
  }

  /** A LIVE book was loaded from a snapshot and is right on the band of that snapshot. What an engine
      that is not LIVE must satisfy does not depend on a band. */
  ghost predicate SafeOn(h: History, cover: Option<Band>, s: EngineState) {
    if s.state == Live then cover.Some? && Safe(h, cover.value, s) else Safe(h, WHOLE_BOOK, s)
  }

  lemma {:induction false} RunConcat(s: EngineState, first: seq<Input>, second: seq<Input>)
    ensures Run(s, first + second) == Run(Run(s, first), second)
    decreases |first|
  {
    if first == [] {
      assert first + second == second;
    } else {
      assert (first + second)[1..] == first[1..] + second;
      RunConcat(Handle(s, first[0]), first[1..], second);
    }
  }

  ghost predicate Honest(h: History, input: Input) {
    match input
    case Deliver(event) => Faithful(h, event)
    case Fetch(snapshot, cover) => TrueSnapshot(h, cover, snapshot)
    case Reset => true
  }

  lemma DeliverSafe(h: History, cover: Option<Band>, s: EngineState, event: DiffEvent)
    requires SafeOn(h, cover, s) && Faithful(h, event)
    ensures SafeOn(h, cover, ApplyEvent(s, event).0)
  {
    if s.state == Live {
      ApplyLiveSafe(h, cover.value, s, event);
    }
  }

  lemma FetchSafe(h: History, cover: Option<Band>, s: EngineState, snapshot: SnapshotEvent, own: Band)
    requires SafeOn(h, cover, s) && TrueSnapshot(h, own, snapshot)
    ensures SafeOn(h, NextCover(s, cover, Fetch(snapshot, own)), LoadSnapshot(s, snapshot).0)
    ensures s.state != Buffering ==> LoadSnapshot(s, snapshot).0.state != Buffering
  {
    if s.state != Live {
      LoadSnapshotSafe(h, own, s, snapshot);
    }
  }

  lemma HandleSafe(h: History, cover: Option<Band>, s: EngineState, input: Input)
    requires SafeOn(h, cover, s) && Honest(h, input)
    ensures SafeOn(h, NextCover(s, cover, input), Handle(s, input))
    ensures s.state != Buffering ==> Handle(s, input).state != Buffering
  {
    match input
    case Deliver(event) => DeliverSafe(h, cover, s, event);
    case Fetch(snapshot, own) => FetchSafe(h, cover, s, snapshot, own);
    case Reset =>
  }

  /** Safety over every run. The inputs may repeat, omit and reorder events at will and may carry
      snapshots of any age, each complete for a band of its own; only their honesty is assumed. */
  lemma {:induction false} RunSafe(h: History, cover: Option<Band>, s: EngineState, inputs: seq<Input>)
    requires SafeOn(h, cover, s)
    requires forall i :: i in inputs ==> Honest(h, i)
    ensures SafeOn(h, LastCover(s, cover, inputs), Run(s, inputs))
    ensures s.state != Buffering ==> Run(s, inputs).state != Buffering
    decreases |inputs|
  {
    if inputs != [] {
      HandleSafe(h, cover, s, inputs[0]);
      RunSafe(h, NextCover(s, cover, inputs[0]), Handle(s, inputs[0]), inputs[1..]);
    }
  }

  /** The headline form: started empty, a LIVE engine agrees with the exchange's book at its checkpoint
      on the band of the snapshot it was loaded from, and any other engine holds nothing. */
  lemma LiveBookIsTrueOnItsBand(h: History, inputs: seq<Input>)
    requires forall i :: i in inputs ==> Honest(h, i)
    ensures var end, cover := Run(INITIAL, inputs), LastCover(INITIAL, None, inputs);
      if end.state == Live then
        && end.lastAppliedId.Some? && end.lastAppliedId.value in h && end.buffer == []
        && cover.Some? && Agree(end.book, h[end.lastAppliedId.value], cover.value)
      else end.book == EMPTY_BOOK && end.lastAppliedId == None
  {
    RunSafe(h, None, INITIAL, inputs);
  }

  lemma {:induction false} CoverStaysWhole(s: EngineState, cover: Option<Band>, inputs: seq<Input>)
    requires cover.Some? ==> cover.value == WHOLE_BOOK
    requires forall i :: i in inputs && i.Fetch? ==> i.cover == WHOLE_BOOK
    ensures LastCover(s, cover, inputs).Some? ==> LastCover(s, cover, inputs).value == WHOLE_BOOK
    decreases |inputs|
  {
    if inputs != [] {
      CoverStaysWhole(Handle(s, inputs[0]), NextCover(s, cover, inputs[0]), inputs[1..]);
    }
  }

  /** With complete snapshots, the book is the exchange's own. */
  lemma LiveBookIsTheMarket(h: History, inputs: seq<Input>)
    requires forall i :: i in inputs ==> Honest(h, i) && (i.Fetch? ==> i.cover == WHOLE_BOOK)
    ensures var end := Run(INITIAL, inputs);
      if end.state == Live then
        end.lastAppliedId.Some? && end.lastAppliedId.value in h && end.book == h[end.lastAppliedId.value]
        && end.buffer == []
      else end.book == EMPTY_BOOK && end.lastAppliedId == None
  {
    LiveBookIsTrueOnItsBand(h, inputs);
    CoverStaysWhole(INITIAL, None, inputs);
    var end := Run(INITIAL, inputs);
    if end.state == Live {
      AgreeOnWholeBook(end.book, h[end.lastAppliedId.value]);
    }
  }
}
