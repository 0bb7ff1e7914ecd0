// build_snapshot_row (src/l2_pipeline/feeds/envelope.py): the row written for an applied event is
// the true top of the exchange's book.
module Envelope {
  import opened BookTypes
  import opened Levels
  import opened TopLevels
  import opened Engine
  import opened Synchronisation
  import opened SnapshotOutcome
  import opened Rows

  datatype InstrumentId = InstrumentId(exchange: string, symbol: string)

  /** The row holds the depth best levels of both sides of this book. */
  ghost predicate RowShows(row: SnapshotRow, book: Book, depth: int) {
    && IsTop(book.bids, true, SliceLength(|book.bids|, depth), row.bids)
    && IsTop(book.asks, false, SliceLength(|book.asks|, depth), row.asks)
  }

  /** The row build_snapshot_row makes of this engine. */
  ghost predicate IsRowOf(row: SnapshotRow, s: EngineState, depth: int) {
    RowShows(row, s.book, depth) && Some(row.lastAppliedId) == s.lastAppliedId
  }

  /** Only called after an APPLIED result; the source asserts that the checkpoint is then set. */
  method BuildSnapshotRow(engine: BookEngine, instrument: InstrumentId, tsLocalNs: int, tsWallNs: int,
                          tsExchangeMs: Option<int>) returns (row: SnapshotRow)
    requires engine.lastAppliedId.Some?
    ensures IsRowOf(row, engine.View(), engine.depthLevels)
    ensures engine.depthLevels >= 0 ==>
      && |row.bids| == (if engine.depthLevels < |engine.bids| then engine.depthLevels else |engine.bids|)
      && |row.asks| == (if engine.depthLevels < |engine.asks| then engine.depthLevels else |engine.asks|)
    ensures (row.exchange, row.symbol) == (instrument.exchange, instrument.symbol)
    ensures (row.tsLocalNs, row.tsWallNs, row.tsExchangeMs) == (tsLocalNs, tsWallNs, tsExchangeMs)
  {
    var bids, asks := engine.BestLevels(None);
    row := SnapshotRow(instrument.exchange, instrument.symbol, tsExchangeMs, tsLocalNs, tsWallNs,
                       engine.lastAppliedId.value, bids, asks);
  }

  /** The assertion in build_snapshot_row holds after every APPLIED result, of either kind. */
  lemma AppliedSetsCheckpoint(s: EngineState, event: DiffEvent, snapshot: SnapshotEvent)
    ensures ApplyEvent(s, event).1 == Applied ==>
      ApplyEvent(s, event).0.state == s.state && ApplyEvent(s, event).0.lastAppliedId == Some(event.finalId)
    ensures LoadSnapshot(s, snapshot).1 == Returned(Applied) ==>
      LoadSnapshot(s, snapshot).0.state == Live && LoadSnapshot(s, snapshot).0.lastAppliedId.Some?
  {
    if s.state != Live {
      LoadOutcomeExact(s, snapshot);
    }
  }

  /** A row taken from a LIVE engine that is fed complete snapshots is the exchange's own top of
      book at the row's id, and is uncrossed whenever the exchange's book is. */
  lemma RowIsTrueTop(h: History, s: EngineState, row: SnapshotRow, depth: int)
    requires Safe(h, WHOLE_BOOK, s) && s.state == Live
    requires IsRowOf(row, s, depth)
    ensures row.lastAppliedId in h && RowShows(row, h[row.lastAppliedId], depth)
    ensures var truth := h[row.lastAppliedId];
      depth >= 0 ==>
      && |row.bids| == (if depth < |truth.bids| then depth else |truth.bids|)
      && |row.asks| == (if depth < |truth.asks| then depth else |truth.asks|)
    ensures var truth := h[row.lastAppliedId];
      (forall b, a :: b in truth.bids && a in truth.asks ==> b < a) && row.bids != [] && row.asks != []
      ==> row.bids[0].price < row.asks[0].price
  {
    AgreeOnWholeBook(s.book, h[row.lastAppliedId]);
  }

  /** Of a side that is known to be right from the best price down to this bound, the levels written
      are the best ones wherever these lie within the bound; without one they always are. */
  ghost predicate SideExact(truth: Ladder, isBid: bool, bound: Option<Price>, depth: int, levels: seq<PriceLevel>) {
    if bound.None? then
      && IsTop(truth, isBid, SliceLength(|truth|, depth), levels)
      && (depth >= 0 ==> |levels| == if depth < |truth| then depth else |truth|)
    else
      forall best: seq<PriceLevel> :: |truth| >= depth >= 0 && IsTop(truth, isBid, depth, best)
                     && (forall l: PriceLevel :: l in best ==> !Better(isBid, bound.value, l.price))
                     ==> levels == best
  }

  /** The row is the exchange's own top of book at the row's id, as far as the band reaches. */
  ghost predicate RowExact(h: History, cover: Band, row: SnapshotRow, depth: int) {
    && row.lastAppliedId in h
    && SideExact(h[row.lastAppliedId].bids, true, cover.bidFloor, depth, row.bids)
    && SideExact(h[row.lastAppliedId].asks, false, cover.askCeil, depth, row.asks)
  }

  lemma SideIsExact(truth: Ladder, side: Ladder, isBid: bool, bound: Option<Price>, depth: int, levels: seq<PriceLevel>)
    requires forall p :: bound.None? || !Better(isBid, bound.value, p) ==> Lookup(truth, p) == Lookup(side, p)
    requires IsTop(side, isBid, SliceLength(|side|, depth), levels)
    ensures SideExact(truth, isBid, bound, depth, levels)
  {
    if bound.None? {
      SameLookupsSameLadder(truth, side);
    } else {
      var band := iset p | !Better(isBid, bound.value, p);
      forall best: seq<PriceLevel> | |truth| >= depth >= 0 && IsTop(truth, isBid, depth, best)
                    && (forall l: PriceLevel :: l in best ==> !Better(isBid, bound.value, l.price))
        ensures levels == best
      {
        TopWithinBand(truth, side, isBid, band, depth, best);
        TopIsUnique(side, isBid, depth, levels, best);
      }
    }
  }

  /** With depth-limited snapshots the row is still exact as long as the exchange's depth best levels
      lie within the band the book was loaded for. */
  lemma RowIsExactOnItsBand(h: History, cover: Band, s: EngineState, row: SnapshotRow, depth: int)
    requires Safe(h, cover, s) && s.state == Live && IsRowOf(row, s, depth)
    ensures RowExact(h, cover, row, depth)
  {
    var truth := h[row.lastAppliedId];
    forall p
      ensures cover.bidFloor.None? || !Better(true, cover.bidFloor.value, p) ==>
        Lookup(truth.bids, p) == Lookup(s.book.bids, p)
    {
      assert cover.HasBid(p) ==> Lookup(s.book.bids, p) == Lookup(truth.bids, p);
    }
    forall p
      ensures cover.askCeil.None? || !Better(false, cover.askCeil.value, p) ==>
        Lookup(truth.asks, p) == Lookup(s.book.asks, p)
    {
      assert cover.HasAsk(p) ==> Lookup(s.book.asks, p) == Lookup(truth.asks, p);
    }
    SideIsExact(truth.bids, s.book.bids, true, cover.bidFloor, depth, row.bids);
    SideIsExact(truth.asks, s.book.asks, false, cover.askCeil, depth, row.asks);
  }

  /** A row put on the queue, with the band of the snapshot the book behind it was loaded from. */
  datatype Emitted = Emitted(row: SnapshotRow, cover: Option<Band>)

  ghost predicate EmittedExact(h: History, e: Emitted, depth: int) {
    e.cover.Some? && RowExact(h, e.cover.value, e.row, depth)
  }

  predicate IsApplied(s: EngineState, input: Input) {
    match input
    case Deliver(event) => ApplyEvent(s, event).1 == Applied
    case Fetch(snapshot, _) => LoadSnapshot(s, snapshot).1 == Returned(Applied)
    case Reset => false
  }

  /** The checkpoints of an engine run after each input it applied. */
  function AppliedIds(s: EngineState, inputs: seq<Input>): seq<Option<int>>
    decreases |inputs|
  {
    if inputs == [] then []
    else
      var next := Handle(s, inputs[0]);
      (if IsApplied(s, inputs[0]) then [next.lastAppliedId] else []) + AppliedIds(next, inputs[1..])
  }

  /** The ids of the rows put on a queue. */
  function RowIds(emitted: seq<Emitted>): seq<Option<int>> {
    if emitted == [] then [] else [Some(emitted[0].row.lastAppliedId)] + RowIds(emitted[1..])
  }

  lemma FirstInput(s: EngineState, first: seq<Input>, rest: seq<Input>)
    requires |first| <= 1
    ensures AppliedIds(s, first + rest)
         == (if first != [] && IsApplied(s, first[0]) then [Handle(s, first[0]).lastAppliedId] else [])
            + AppliedIds(Run(s, first), rest)
  {
    if first == [] {
      assert first + rest == rest;
    } else {
      assert (first + rest)[1..] == rest && first[1..] == [];
      assert Run(s, first) == Run(Handle(s, first[0]), []);
    }
  }
}
