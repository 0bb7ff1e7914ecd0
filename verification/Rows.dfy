// SnapshotRow and rows_to_table (src/l2_pipeline/sinks/parquet_sink.py): the row-to-column
// transposition of a batch.
module Rows {
  import opened BookTypes

  datatype SnapshotRow = SnapshotRow(
    exchange: string, symbol: string, tsExchangeMs: Option<int>, tsLocalNs: int, tsWallNs: int,
    lastAppliedId: int, bids: seq<PriceLevel>, asks: seq<PriceLevel>)

  /** The price column and the quantity column of one depth of one side. */
  datatype SideColumn = SideColumn(prices: seq<Option<Price>>, qtys: seq<Option<Qty>>)

  datatype Table = Table(
    tsExchangeMs: seq<Option<int>>, tsLocalNs: seq<int>, tsWallNs: seq<int>, lastAppliedId: seq<int>,
    asks: seq<SideColumn>, bids: seq<SideColumn>)

  /** Every column of the side has one cell for each of n rows. */
  ghost predicate Rectangular(side: seq<SideColumn>, depth: nat, n: nat) {
    |side| == depth && forall i :: 0 <= i < depth ==> |side[i].prices| == n && |side[i].qtys| == n
  }

  /** Row r of the side holds these levels, cut off at the depth and padded with nulls up to it. */
  ghost predicate SideHolds(side: seq<SideColumn>, r: nat, levels: seq<PriceLevel>) {
    forall i :: 0 <= i < |side| ==>
      && r < |side[i].prices| && r < |side[i].qtys|
      && side[i].prices[r] == (if i < |levels| then Some(levels[i].price) else None)
      && side[i].qtys[r] == (if i < |levels| then Some(levels[i].qty) else None)
  }

  ghost predicate TableOf(t: Table, rows: seq<SnapshotRow>, depth: nat) {
    && |t.tsExchangeMs| == |t.tsLocalNs| == |t.tsWallNs| == |t.lastAppliedId| == |rows|
    && Rectangular(t.asks, depth, |rows|) && Rectangular(t.bids, depth, |rows|)
    && forall r :: 0 <= r < |rows| ==>
         && t.tsExchangeMs[r] == rows[r].tsExchangeMs && t.tsLocalNs[r] == rows[r].tsLocalNs
         && t.tsWallNs[r] == rows[r].tsWallNs && t.lastAppliedId[r] == rows[r].lastAppliedId
         && SideHolds(t.asks, r, rows[r].asks) && SideHolds(t.bids, r, rows[r].bids)
  }

  method AppendSide(side: seq<SideColumn>, levels: seq<PriceLevel>, ghost n: nat) returns (next: seq<SideColumn>)
    requires Rectangular(side, |side|, n)
    ensures Rectangular(next, |side|, n + 1) && SideHolds(next, n, levels)
    ensures forall i :: 0 <= i < |side| ==> side[i].prices <= next[i].prices && side[i].qtys <= next[i].qtys
  {
    next := [];
    for i := 0 to |side|
      invariant Rectangular(next, i, n + 1) && SideHolds(next, n, levels)
      invariant forall k :: 0 <= k < i ==> side[k].prices <= next[k].prices && side[k].qtys <= next[k].qtys
    {
      if i < |levels| {
        next := next + [SideColumn(side[i].prices + [Some(levels[i].price)], side[i].qtys + [Some(levels[i].qty)])];
      } else {
        next := next + [SideColumn(side[i].prices + [None], side[i].qtys + [None])];
      }
    }
  }

  lemma SideHoldsKept(side: seq<SideColumn>, next: seq<SideColumn>, r: nat, levels: seq<PriceLevel>)
    requires |side| == |next| && SideHolds(side, r, levels)
    requires forall i :: 0 <= i < |side| ==> side[i].prices <= next[i].prices && side[i].qtys <= next[i].qtys
    ensures SideHolds(next, r, levels)
  {
  }

  method RowsToTable(rows: seq<SnapshotRow>, depth: nat) returns (t: Table)
    ensures TableOf(t, rows, depth)
  {
    var tsExchangeMs, tsLocalNs, tsWallNs, lastAppliedId := [], [], [], [];
    var empty := SideColumn([], []);
    var asks, bids := seq(depth, _ => empty), seq(depth, _ => empty);
    for r := 0 to |rows|
      invariant TableOf(Table(tsExchangeMs, tsLocalNs, tsWallNs, lastAppliedId, asks, bids), rows[..r], depth)
    {
      ghost var asks0, bids0 := asks, bids;
      tsExchangeMs := tsExchangeMs + [rows[r].tsExchangeMs];
      tsLocalNs := tsLocalNs + [rows[r].tsLocalNs];
      tsWallNs := tsWallNs + [rows[r].tsWallNs];
      lastAppliedId := lastAppliedId + [rows[r].lastAppliedId];
      asks := AppendSide(asks, rows[r].asks, r);
      bids := AppendSide(bids, rows[r].bids, r);
      forall k | 0 <= k < r
        ensures SideHolds(asks, k, rows[k].asks) && SideHolds(bids, k, rows[k].bids)
      {
        assert rows[..r][k] == rows[k];
        SideHoldsKept(asks0, asks, k, rows[k].asks);
        SideHoldsKept(bids0, bids, k, rows[k].bids);
      }
    }
    assert rows[..|rows|] == rows;
    t := Table(tsExchangeMs, tsLocalNs, tsWallNs, lastAppliedId, asks, bids);
  }

  /** What a reader gets back from row r of a side: the levels up to the first null. */
  function ReadSide(side: seq<SideColumn>, r: nat): seq<PriceLevel>
    requires forall c :: c in side ==> r < |c.prices| && r < |c.qtys|
  {
    if side == [] || side[0].prices[r].None? || side[0].qtys[r].None? then []
    else [PriceLevel(side[0].prices[r].value, side[0].qtys[r].value)] + ReadSide(side[1..], r)
  }

  lemma {:induction false} ReadSideIsPrefix(side: seq<SideColumn>, r: nat, levels: seq<PriceLevel>)
    requires SideHolds(side, r, levels)
    ensures ReadSide(side, r) == if |levels| <= |side| then levels else levels[..|side|]
    decreases |side|
  {
    if side != [] && levels != [] {
      forall i | 0 <= i < |side[1..]|
        ensures side[1..][i].prices[r] == (if i < |levels[1..]| then Some(levels[1..][i].price) else None)
        ensures side[1..][i].qtys[r] == (if i < |levels[1..]| then Some(levels[1..][i].qty) else None)
      {
        assert side[1..][i] == side[i + 1];
      }
      ReadSideIsPrefix(side[1..], r, levels[1..]);
      assert levels == [levels[0]] + levels[1..];
      assert |levels| > |side| ==> levels[..|side|] == [levels[0]] + levels[1..][..|side| - 1];
    }
  }

  /** The exchange and symbol are not columns: the reader takes them from the path. */
  function ReadRow(t: Table, r: nat, exchange: string, symbol: string): SnapshotRow
    requires r < |t.tsExchangeMs| && r < |t.tsLocalNs| && r < |t.tsWallNs| && r < |t.lastAppliedId|
    requires forall c :: c in t.asks ==> r < |c.prices| && r < |c.qtys|
    requires forall c :: c in t.bids ==> r < |c.prices| && r < |c.qtys|
  {
    SnapshotRow(exchange, symbol, t.tsExchangeMs[r], t.tsLocalNs[r], t.tsWallNs[r], t.lastAppliedId[r],
                ReadSide(t.bids, r), ReadSide(t.asks, r))
  }

  /** The transposition loses nothing exactly when the row is no deeper than the table. */
  lemma RoundTripIff(t: Table, rows: seq<SnapshotRow>, depth: nat, r: nat)
    requires TableOf(t, rows, depth) && r < |rows|
    ensures ReadRow(t, r, rows[r].exchange, rows[r].symbol) == rows[r]
        <==> |rows[r].asks| <= depth && |rows[r].bids| <= depth
  {
    ReadSideIsPrefix(t.asks, r, rows[r].asks);
    ReadSideIsPrefix(t.bids, r, rows[r].bids);
  }
}
