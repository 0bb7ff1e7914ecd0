// The value types of src/l2_pipeline/book/types.py. A Decimal is a real number here: the code
// only compares, adds and subtracts prices and quantities, all of which are exact.
module BookTypes {

  datatype Option<+T> = None | Some(value: T)

  type Price = real
  type Qty = real

  datatype PriceLevel = PriceLevel(price: Price, qty: Qty)

  /** One side of a book: the dict from price to quantity. */
  type Ladder = map<Price, Qty>

  datatype Book = Book(bids: Ladder, asks: Ladder)

  const EMPTY_BOOK := Book(map[], map[])

  datatype DiffEvent = DiffEvent(prevId: int, finalId: int, bids: seq<PriceLevel>, asks: seq<PriceLevel>)

  datatype SnapshotEvent = SnapshotEvent(lastUpdateId: int, bids: seq<PriceLevel>, asks: seq<PriceLevel>)

  datatype BookState = Buffering | Resyncing | Live

  datatype ApplyStatus = Applied | Buffered | GapDetected | SnapshotStale
}
