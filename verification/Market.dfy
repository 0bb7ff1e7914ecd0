// MarketSimulator (src/l2_pipeline/simulation/market.py): the ground-truth book of the simulation.
module Market {
  import opened BookTypes
  import opened Collections
  import opened Draws
  import opened Levels
  import opened TopLevels
  import opened Engine
  import opened Synchronisation

  const TICK := 0.01
  const MIN_LEVELS_PER_SIDE := 5
  const INITIAL_LEVELS_PER_SIDE := 10
  const INITIAL_MID := 100.0

  /** Every bid lies strictly below every ask, and by at least the given spread. */
  ghost predicate Apart(bids: Ladder, asks: Ladder, spread: real) {
    forall b, a :: b in bids && a in asks ==> b < a && a - b >= spread
  }

  ghost predicate GoodSide(side: Ladder) {
    |side| >= MIN_LEVELS_PER_SIDE && forall p :: p in side ==> 1.0 <= side[p] <= 50.0
  }

  /** The spread the market can promise: the initial book is 0.02 wide, so a larger minimum is not
      met from the start. */
  function PromisedSpread(spreadMin: real): real {
    if 0.0 < spreadMin <= 0.02 then spreadMin else 0.0
  }

  /** What holds even in the middle of a tick: without a positive minimum spread, the sides may then
      have crossed. */
  ghost predicate GoodSides(book: Book, spreadMin: real) {
    && GoodSide(book.bids) && GoodSide(book.asks)
    && (forall p :: p in book.bids ==> p >= TICK)
    && (spreadMin > 0.0 ==> Apart(book.bids, book.asks, PromisedSpread(spreadMin)))
  }

  ghost predicate GoodBook(book: Book, spreadMin: real) {
    GoodSides(book, spreadMin) && Apart(book.bids, book.asks, PromisedSpread(spreadMin))
  }

  /** One level of a side set to a drawn quantity, or deleted from a side that can spare it. */
  lemma SideStaysGood(side: Ladder, level: PriceLevel)
    requires GoodSide(side)
    requires 1.0 <= level.qty <= 50.0 ||
             (level.qty == 0.0 && level.price in side && |side| > MIN_LEVELS_PER_SIDE)
    ensures GoodSide(ApplyLevels(side, [level]))
    ensures ApplyLevels(side, [level]).Keys
         == if level.qty == 0.0 then side.Keys - {level.price} else side.Keys + {level.price}
  {
    assert [level][..0] == [];
    var next := ApplyLevel(side, level);
    assert ApplyLevels(side, [level]) == next;
    if level.qty == 0.0 {
      assert |next.Keys| == |side.Keys| - 1;
    } else {
      assert side.Keys <= next.Keys;
      KeysMonotone(side.Keys, next.Keys);
    }
  }

  lemma KeysMonotone(a: set<Price>, b: set<Price>)
    requires a <= b
    ensures |a| <= |b|
  {
    assert b == a + (b - a);
  }

  ghost predicate GoodHistory(h: History, last: int, spreadMin: real) {
    && (forall k :: k in h <==> 0 <= k <= last)
    && (forall k :: k in h ==> GoodBook(h[k], spreadMin))
  }

  lemma HistoryExtends(h: History, event: DiffEvent, book: Book, spreadMin: real)
    requires 0 <= event.prevId && event.finalId == event.prevId + 1
    requires GoodHistory(h, event.prevId, spreadMin) && GoodBook(book, spreadMin)
    requires ApplyToBook(h[event.prevId], event) == book
    ensures GoodHistory(h[event.finalId := book], event.finalId, spreadMin)
    ensures Faithful(h[event.finalId := book], event)
  {
    ExactStepIsFaithful(h[event.finalId := book], event);
  }

  function BidPrice(bestBid: Price, bestAsk: Price, offset: int, spreadMin: real): Price {
    Max(Min(bestBid + offset as real * TICK, bestAsk - spreadMin), TICK)
  }

  function AskPrice(bestBid: Price, bestAsk: Price, offset: int, spreadMin: real): Price {
    Max(bestAsk + offset as real * TICK, bestBid + spreadMin)
  }

  /** Where a bid and then an ask inserted in the first tick leave the best prices, the seeded ones
      being 99.99 and 100.01. */
  function FirstTickBid(k: int, spreadMin: real): Price {
    Max(99.99, BidPrice(99.99, 100.01, k, spreadMin))
  }

  function FirstTickAsk(k: int, m: int, spreadMin: real): Price {
    Min(100.01, AskPrice(FirstTickBid(k, spreadMin), 100.01, m, spreadMin))
  }

  /** Exactly when the first tick cannot cross the seeded book, whatever is drawn: when the minimum
      spread is positive. Otherwise the assertion at its end can fail. */
  lemma FirstTickNeverCrossesIff(spreadMin: real)
    ensures (forall k, m :: -5 <= k <= 1 && -1 <= m <= 5 ==> FirstTickBid(k, spreadMin) < FirstTickAsk(k, m, spreadMin))
        <==> spreadMin > 0.0
  {
    if spreadMin <= 0.0 {
      assert FirstTickBid(1, spreadMin) == 100.0;
      assert FirstTickAsk(1, -1, spreadMin) == 100.0;
    }
  }

  datatype Action = Insert | Update | Delete

  /** What an insertion goes by: both best prices and the offset drawn. */
  datatype Insertion = Insertion(bestBid: Price, bestAsk: Price, offset: int)

  class MarketSimulator {
    const spreadMin: real
    var updateId: int
    var bids: Ladder
    var asks: Ladder
    /** The book at every update id so far: what the engine is compared with. */
    ghost var history: History

    ghost predicate Valid()
      reads this
    {
      && 0 <= updateId
      && GoodHistory(history, updateId, spreadMin)
      && history[updateId] == Book(bids, asks)
    }

    /** The seeded book meets the minimum spread exactly when that is at most 0.02. */
    constructor (spreadMin: real)
      ensures Valid() && this.spreadMin == spreadMin && updateId == 0
      ensures |bids| == |asks| == 10
      ensures forall p :: p in bids ==> 99.9 <= p <= 99.99 && 1.0 <= bids[p] <= 50.0
      ensures forall p :: p in asks ==> 100.01 <= p <= 100.1 && 1.0 <= asks[p] <= 50.0
      ensures Apart(bids, asks, spreadMin) <==> spreadMin <= 0.02
    {
      this.spreadMin := spreadMin;
      updateId := 0;
      bids, asks := map[], map[];
      new;
      SeedBook();
      history := map[0 := Book(bids, asks)];
      assert 99.99 in bids && 100.01 in asks;
    }

    method SeedBook()
      requires bids == asks == map[]
      modifies `bids, `asks
      ensures GoodSide(bids) && GoodSide(asks) && |bids| == |asks| == INITIAL_LEVELS_PER_SIDE
      ensures forall p :: p in bids ==> 99.9 <= p <= 99.99
      ensures forall p :: p in asks ==> 100.01 <= p <= 100.1
      ensures 99.99 in bids && 100.01 in asks
    {
      for k := 1 to INITIAL_LEVELS_PER_SIDE + 1
        invariant |bids| == |asks| == k - 1
        invariant forall p :: p in bids ==> 1.0 <= bids[p] <= 50.0
        invariant forall p :: p in asks ==> 1.0 <= asks[p] <= 50.0
        invariant forall p :: p in bids ==> INITIAL_MID - (k - 1) as real * TICK <= p <= 99.99
        invariant forall p :: p in asks ==> 100.01 <= p <= INITIAL_MID + (k - 1) as real * TICK
        invariant k > 1 ==> 99.99 in bids && 100.01 in asks
      {
        var bidQty := RandInt(1, 50);
        bids := bids[INITIAL_MID - k as real * TICK := bidQty as real];
        var askQty := RandInt(1, 50);
        asks := asks[INITIAL_MID + k as real * TICK := askQty as real];
      }
    }

    method SnapshotNow() returns (snapshot: SnapshotEvent)
      ensures snapshot.lastUpdateId == updateId && SnapshotBook(snapshot) == Book(bids, asks)
    {
      var bidLevels := Items(bids);
      var askLevels := Items(asks);
      return SnapshotEvent(updateId, bidLevels, askLevels);
    }

    /** Every tick changes one level of one or of both sides, and the event reports exactly the
        change from the old book to the new. The assertion at its end fails exactly when the two sides
        have crossed, and with a positive minimum spread they never do. */
    method Step() returns (event: DiffEvent, raised: bool)
      requires Valid()
      modifies this
      ensures spreadMin > 0.0 ==> !raised
      ensures raised ==> !Apart(bids, asks, 0.0) && updateId == old(updateId) && history == old(history)
      ensures !raised ==> Valid() && updateId == old(updateId) + 1
      ensures |bids| >= 5 && |asks| >= 5
      ensures forall p :: p in bids ==> 0.01 <= p && 1.0 <= bids[p] <= 50.0
      ensures forall p :: p in asks ==> 1.0 <= asks[p] <= 50.0
      ensures !raised ==> forall b, a :: b in bids && a in asks ==> b < a
      ensures !raised && 0.0 < spreadMin <= 0.02 ==> forall b, a :: b in bids && a in asks ==> a - b >= spreadMin
      ensures !raised ==> event.prevId == old(updateId) && event.finalId == updateId
      ensures ApplyToBook(Book(old(bids), old(asks)), event) == Book(bids, asks)
      ensures |event.bids| <= 1 && |event.asks| <= 1 && |event.bids| + |event.asks| >= 1
      ensures !raised ==> history == old(history)[updateId := Book(bids, asks)] && Faithful(history, event)
    {
      var prevId := updateId;
      var bidChanges, askChanges := TickBoth();
      event := DiffEvent(prevId, prevId + 1, bidChanges, askChanges);
      var uncrossed := Uncrossed();
      if !uncrossed {
        return event, true;
      }
      updateId := updateId + 1;
      raised := false;
      HistoryExtends(history, event, Book(bids, asks), spreadMin);
      history := history[updateId := Book(bids, asks)];
    }

    /** The draws of one tick: either side, both, or, if neither was drawn, one of them all the same. */
    method TickBoth() returns (bidChanges: seq<PriceLevel>, askChanges: seq<PriceLevel>)
      requires GoodSides(Book(bids, asks), spreadMin)
      modifies `bids, `asks
      ensures GoodSides(Book(bids, asks), spreadMin)
      ensures bids == ApplyLevels(old(bids), bidChanges) && asks == ApplyLevels(old(asks), askChanges)
      ensures |bidChanges| <= 1 && |askChanges| <= 1 && |bidChanges| + |askChanges| >= 1
    {
      bidChanges, askChanges := [], [];
      var bidTick := Chance(0.55);
      if bidTick {
        bidChanges := TickSide(true);
      }
      var askTick := Chance(0.55);
      if askTick {
        askChanges := TickSide(false);
      }
      if bidChanges == [] && askChanges == [] {
        var onBids := Chance(0.5);
        if onBids {
          bidChanges := TickSide(true);
        } else {
          askChanges := TickSide(false);
        }
      }
    }

    /** The assertion that the best bid is below the best ask. */
    method Uncrossed() returns (holds: bool)
      requires GoodSides(Book(bids, asks), spreadMin)
      ensures holds <==> Apart(bids, asks, 0.0)
      ensures holds ==> GoodBook(Book(bids, asks), spreadMin)
      ensures spreadMin > 0.0 ==> holds
    {
      var bestBid := BestBid();
      var bestAsk := BestAsk();
      assert bids != map[] && asks != map[];
      holds := bestBid < bestAsk;
    }

    /** Draws one change for a side and applies it at once, so that the other side's change in the
        same tick is drawn against its result. */
    method TickSide(isBid: bool) returns (changes: seq<PriceLevel>)
      requires GoodSides(Book(bids, asks), spreadMin)
      modifies `bids, `asks
      ensures |changes| == 1 && GoodSides(Book(bids, asks), spreadMin)
      ensures bids == if isBid then ApplyLevels(old(bids), changes) else old(bids)
      ensures asks == if isBid then old(asks) else ApplyLevels(old(asks), changes)
    {
      ghost var drawn: Action;
      ghost var insert: Insertion;
      changes, drawn, insert := ChangesForSide(isBid);
      if isBid {
        bids := ApplyLevelsInPlace(bids, changes);
      } else {
        asks := ApplyLevelsInPlace(asks, changes);
      }
    }

    method BestBid() returns (best: Price)
      ensures if bids == map[] then best == INITIAL_MID - TICK
              else best in bids && forall p :: p in bids ==> p <= best
    {
      if bids == map[] { return INITIAL_MID - TICK; }
      best := BestPrice(bids, true);
    }

    method BestAsk() returns (best: Price)
      ensures if asks == map[] then best == INITIAL_MID + TICK
              else best in asks && forall p :: p in asks ==> p >= best
    {
      if asks == map[] { return INITIAL_MID + TICK; }
      best := BestPrice(asks, false);
    }

    /** One change to one side, after which the sides are still good: what the drawn action says, except
        that a side of five levels is not thinned out. */
    method ChangesForSide(isBid: bool) returns (changes: seq<PriceLevel>, ghost drawn: Action, ghost insert: Insertion)
      requires GoodSides(Book(bids, asks), spreadMin)
      ensures |changes| == 1
      ensures var side, level := if isBid then bids else asks, changes[0];
        match drawn
        case Delete => level.price in side && if |side| > 5 then level.qty == 0.0 else 1.0 <= level.qty <= 50.0
        case Update => level.price in side && 1.0 <= level.qty <= 50.0
        case Insert => Inserted(isBid, level, insert)
      ensures isBid ==> GoodSides(Book(ApplyLevels(bids, changes), asks), spreadMin)
      ensures !isBid ==> GoodSides(Book(bids, ApplyLevels(asks, changes)), spreadMin)
    {
      var side := if isBid then bids else asks;
      var action: Action := *;
      drawn := action;
      if action == Delete && |side| <= MIN_LEVELS_PER_SIDE {
        action := Update;
      }
      assert side.Keys != {};
      insert := Insertion(0.0, 0.0, 0);
      var level: PriceLevel;
      if action == Delete {
        var price := Pick(side.Keys);
        level := PriceLevel(price, 0.0);
      } else if action == Update {
        var price := Pick(side.Keys);
        var qty := RandInt(1, 50);
        level := PriceLevel(price, qty as real);
      } else {
        level, insert := InsertLevel(isBid);
      }
      SideStaysGood(side, level);
      changes := [level];
      ghost var next := ApplyLevels(side, changes);
      assert forall p :: p in next ==> p in side || p == level.price;
    }

    /** An inserted level: up to five ticks behind and one tick before the best price of its side, but no
        closer to the other side's best price than the minimum spread, and never below one tick. */
    ghost predicate Inserted(isBid: bool, level: PriceLevel, insert: Insertion)
      reads `bids, `asks
    {
      && insert.bestBid in bids && (forall p :: p in bids ==> p <= insert.bestBid)
      && insert.bestAsk in asks && (forall p :: p in asks ==> p >= insert.bestAsk)
      && 1.0 <= level.qty <= 50.0
      && if isBid then
           -5 <= insert.offset <= 1 &&
           var near := insert.bestBid + insert.offset as real * 0.01;
           var clear := if near < insert.bestAsk - spreadMin then near else insert.bestAsk - spreadMin;
           level.price == if clear < 0.01 then 0.01 else clear
         else
           -1 <= insert.offset <= 5 &&
           var near := insert.bestAsk + insert.offset as real * 0.01;
           level.price == if near < insert.bestBid + spreadMin then insert.bestBid + spreadMin else near
    }

    /** With a positive minimum spread, a new level on one side keeps clear of the other side. */
    method InsertLevel(isBid: bool) returns (level: PriceLevel, ghost insert: Insertion)
      requires GoodSides(Book(bids, asks), spreadMin)
      ensures 1.0 <= level.qty <= 50.0 && Inserted(isBid, level, insert)
      ensures isBid ==> level.price >= TICK
      ensures isBid && spreadMin > 0.0 ==>
        forall a :: a in asks ==> level.price < a && a - level.price >= PromisedSpread(spreadMin)
      ensures !isBid && spreadMin > 0.0 ==>
        forall b :: b in bids ==> b < level.price && level.price - b >= PromisedSpread(spreadMin)
    {
      var bestBid := BestBid();
      var bestAsk := BestAsk();
      assert bids != map[] && asks != map[];
      var qty := RandInt(1, 50);
      var price: Price;
      if isBid {
        var offset := RandInt(-5, 1);
        price := BidPrice(bestBid, bestAsk, offset, spreadMin);
        insert := Insertion(bestBid, bestAsk, offset);
      } else {
        var offset := RandInt(-1, 5);
        price := AskPrice(bestBid, bestAsk, offset, spreadMin);
        insert := Insertion(bestBid, bestAsk, offset);
      }
      level := PriceLevel(price, qty as real);
    }
  }

  function Min(a: real, b: real): real {
    if a < b then a else b
  }

  function Max(a: real, b: real): real {
    if a < b then b else a
  }

  /** The levels of a dict, in some order: each price once, with its quantity. */
  method Items(side: Ladder) returns (levels: seq<PriceLevel>)
    ensures LadderOf(levels) == side && |levels| == |side|
  {
    levels := [];
    var rest := side;
    ghost var listed: Ladder := map[];
    while rest != map[]
      invariant |levels| + |rest| == |side| && LadderOf(levels) == listed
      invariant listed.Keys + rest.Keys == side.Keys
      invariant forall p :: p in rest ==> rest[p] == side[p]
      invariant forall p :: p in listed ==> listed[p] == side[p]
      decreases |rest|
    {
      assert rest.Keys != {};
      var p := Pick(rest.Keys);
      ghost var before := levels;
      levels := levels + [PriceLevel(p, rest[p])];
      assert levels[..|before|] == before;
      listed := listed[p := rest[p]];
      rest := rest - {p};
    }
    assert rest.Keys == {};
    assert listed.Keys == side.Keys;
    forall p ensures Lookup(listed, p) == Lookup(side, p) {
      assert p in listed <==> p in listed.Keys;
      assert p in side <==> p in side.Keys;
    }
    SameLookupsSameLadder(listed, side);
  }
}
