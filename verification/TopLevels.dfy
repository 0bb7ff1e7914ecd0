// sorted(side.items())[:limit]: the best levels of one side of a book.
module TopLevels {
  import opened BookTypes
  import opened Collections
  import opened Levels

  /** Bids are best first from the highest price down, asks from the lowest up. */
  predicate Better(isBid: bool, p: Price, q: Price) {
    if isBid then p > q else p < q
  }

  /** The length of xs[:limit] for a list of the given size; a negative limit drops from the end. */
  function SliceLength(size: nat, limit: int): (n: nat)
    ensures 0 <= limit <= size ==> n == limit
    ensures limit > size ==> n == size
    ensures limit < 0 <= size + limit ==> n == size + limit
    ensures size + limit < 0 ==> n == 0
  {
    if limit < 0 then (if size + limit < 0 then 0 else size + limit)
    else if limit < size then limit else size
  }

  predicate Listed(levels: seq<PriceLevel>, p: Price) {
    exists i :: 0 <= i < |levels| && levels[i].price == p
  }

  /** The n best levels of a side: strictly best first, with the side's own quantities, and every
      price left out worse than every price listed. */
  ghost predicate IsTop(side: Ladder, isBid: bool, n: nat, levels: seq<PriceLevel>) {
    && |levels| == n
    && (forall i, j :: 0 <= i < j < n ==> Better(isBid, levels[i].price, levels[j].price))
    && (forall i :: 0 <= i < n ==> levels[i].price in side && side[levels[i].price] == levels[i].qty)
    && (forall p, i :: p in side && 0 <= i < n ==> Listed(levels, p) || Better(isBid, levels[i].price, p))
  }

  /** A prefix of the sorted side, spelled out: how long it is, in which order, and what it leaves out. */
  lemma TopSpelledOut(side: Ladder, isBid: bool, limit: int, levels: seq<PriceLevel>)
    requires IsTop(side, isBid, SliceLength(|side|, limit), levels)
    ensures limit >= 0 ==> |levels| == if limit < |side| then limit else |side|
    ensures limit < 0 ==> |levels| == if |side| + limit < 0 then 0 else |side| + limit
    ensures forall i, j :: 0 <= i < j < |levels| ==>
              if isBid then levels[i].price > levels[j].price else levels[i].price < levels[j].price
    ensures forall p, i :: p in side && 0 <= i < |levels| ==>
              Listed(levels, p) || if isBid then p < levels[i].price else p > levels[i].price
  {
  }

  /** max() or min() over the keys of a dict that is not empty. */
  method BestPrice(side: Ladder, isBid: bool) returns (best: Price)
    requires side != map[]
    ensures best in side
    ensures forall p :: p in side && p != best ==> Better(isBid, best, p)
  {
    assert side.Keys != {};
    best := Pick(side.Keys);
    var rest := side.Keys - {best};
    while rest != {}
      invariant best in side && rest <= side.Keys
      invariant forall p :: p in side && p !in rest && p != best ==> Better(isBid, best, p)
      decreases rest
    {
      var p := Pick(rest);
      if Better(isBid, p, best) {
        best := p;
      }
      rest := rest - {p};
    }
  }

  /** The Python sort, as the repeated choice of the best price that is left. */
  method SortedTop(side: Ladder, isBid: bool, limit: int) returns (levels: seq<PriceLevel>)
    ensures IsTop(side, isBid, SliceLength(|side|, limit), levels)
    ensures 0 <= limit <= |side| ==> |levels| == limit
    ensures limit > |side| ==> |levels| == |side|
    ensures limit < 0 ==> |levels| == if |side| + limit < 0 then 0 else |side| + limit
    ensures forall i, j :: 0 <= i < j < |levels| ==>
              if isBid then levels[i].price > levels[j].price else levels[i].price < levels[j].price
    ensures forall p, i :: p in side && 0 <= i < |levels| ==>
              Listed(levels, p) || if isBid then p < levels[i].price else p > levels[i].price
  {
    var n := SliceLength(|side|, limit);
    var rest := side;
    levels := [];
    while |levels| < n
      invariant |levels| <= n && |rest| == |side| - |levels|
      invariant forall p :: p in rest ==> p in side && rest[p] == side[p]
      invariant forall p :: p in side && p !in rest ==> Listed(levels, p)
      invariant forall i :: 0 <= i < |levels| ==>
                  levels[i].price in side && side[levels[i].price] == levels[i].qty
      invariant forall i, j :: 0 <= i < j < |levels| ==> Better(isBid, levels[i].price, levels[j].price)
      invariant forall p, i :: p in rest && 0 <= i < |levels| ==> Better(isBid, levels[i].price, p)
    {
      var p := BestPrice(rest, isBid);
      ghost var before := levels;
      levels := levels + [PriceLevel(p, side[p])];
      assert levels[|before|].price == p;
      forall q | q in side && Listed(before, q) ensures Listed(levels, q) {
        var i :| 0 <= i < |before| && before[i].price == q;
        assert levels[i].price == q;
      }
      rest := rest - {p};
    }
  }

  /** The description leaves no freedom: a side has one list of n best levels. */
  lemma TopIsUnique(side: Ladder, isBid: bool, n: nat, a: seq<PriceLevel>, b: seq<PriceLevel>)
    requires IsTop(side, isBid, n, a) && IsTop(side, isBid, n, b)
    ensures a == b
  {
    for i := 0 to n
      invariant a[..i] == b[..i]
    {
      assert forall k :: 0 <= k < i ==> a[k] == a[..i][k] == b[k];
      if a[i].price != b[i].price {
        assert Listed(b, a[i].price) || Better(isBid, b[i].price, a[i].price);
        assert Listed(a, b[i].price) || Better(isBid, a[i].price, b[i].price);
      }
    }
  }

  /** If two sides agree on the prices that satisfy a band closed towards better prices, and the n
      best of the first lie within it, they are the n best of the second. */
  lemma TopWithinBand(truth: Ladder, side: Ladder, isBid: bool, band: iset<Price>, n: nat, levels: seq<PriceLevel>)
    requires forall p :: p in band ==> Lookup(truth, p) == Lookup(side, p)
    requires forall p, q :: p in band && Better(isBid, q, p) ==> q in band
    requires IsTop(truth, isBid, n, levels)
    requires forall i :: 0 <= i < n ==> levels[i].price in band
    ensures n <= |side| && IsTop(side, isBid, n, levels)
  {
    forall i | 0 <= i < n ensures levels[i].price in side && side[levels[i].price] == levels[i].qty {
      assert Lookup(truth, levels[i].price) == Lookup(side, levels[i].price);
    }
    forall p, i | p in side && 0 <= i < n
      ensures Listed(levels, p) || Better(isBid, levels[i].price, p)
    {
      if p in band {
        assert Lookup(truth, p) == Lookup(side, p);
      } else if p == levels[i].price {
      } else {
        assert !Better(isBid, p, levels[i].price);
      }
    }
    DistinctPricesFit(side, isBid, levels);
  }

  lemma {:induction false} DistinctPricesFit(side: Ladder, isBid: bool, levels: seq<PriceLevel>)
    requires forall i, j :: 0 <= i < j < |levels| ==> Better(isBid, levels[i].price, levels[j].price)
    requires forall i :: 0 <= i < |levels| ==> levels[i].price in side
    ensures |levels| <= |side|
    decreases |levels|
  {
    if levels != [] {
      var p := levels[0].price;
      var smaller := side - {p};
      assert |smaller| == |side| - 1;
      DistinctPricesFit(smaller, isBid, levels[1..]);
    }
  }
}
