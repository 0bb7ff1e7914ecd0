// apply_levels: absolute price-level updates to one side of a book, and the algebra that makes
// replaying them safe. Every law below follows from the pointwise description LookupApply.
module Levels {
  import opened BookTypes

  function Lookup(side: Ladder, p: Price): Option<Qty> {
    if p in side then Some(side[p]) else None
  }

  /** What a level with this quantity leaves at its price: quantity 0 means absent. */
  function Effect(q: Qty): Option<Qty> {
    if q == 0.0 then None else Some(q)
  }

  function ApplyLevel(side: Ladder, level: PriceLevel): Ladder {
    if level.qty == 0.0 then side - {level.price} else side[level.price := level.qty]
  }

  function ApplyLevels(side: Ladder, levels: seq<PriceLevel>): Ladder {
    if levels == [] then side
    else
      var n := |levels| - 1;
      ApplyLevel(ApplyLevels(side, levels[..n]), levels[n])
  }

  /** The dict comprehension of a snapshot's levels: the last entry for a price wins, and a
      quantity of 0 is kept as it is. */
  function LadderOf(levels: seq<PriceLevel>): Ladder {
    if levels == [] then map[]
    else
      var n := |levels| - 1;
      LadderOf(levels[..n])[levels[n].price := levels[n].qty]
  }

  /** The quantity in the last entry for price p, if p is mentioned at all. */
  function LastQty(levels: seq<PriceLevel>, p: Price): Option<Qty> {
    if levels == [] then None
    else
      var n := |levels| - 1;
      if levels[n].price == p then Some(levels[n].qty) else LastQty(levels[..n], p)
  }

  /** The in-place loop of apply_levels, with the dict as the variable it reassigns. */
  method ApplyLevelsInPlace(side: Ladder, levels: seq<PriceLevel>) returns (updated: Ladder)
    ensures updated == ApplyLevels(side, levels)
  {
    updated := side;
    for i := 0 to |levels|
      invariant updated == ApplyLevels(side, levels[..i])
    {
      assert levels[..i + 1][..i] == levels[..i];
      if levels[i].qty == 0.0 {
        updated := updated - {levels[i].price};
      } else {
        updated := updated[levels[i].price := levels[i].qty];
      }
    }
    assert levels[..|levels|] == levels;
  }

  lemma SameLookupsSameLadder(a: Ladder, b: Ladder)
    requires forall p :: Lookup(a, p) == Lookup(b, p)
    ensures a == b
  {
    forall p | p in a ensures p in b && a[p] == b[p] { assert Lookup(a, p) == Lookup(b, p); }
    forall p | p in b ensures p in a { assert Lookup(a, p) == Lookup(b, p); }
  }

  /** apply_levels price by price: the last level naming p decides it, a price not named keeps
      what it had. */
  lemma {:induction false} LookupApply(side: Ladder, levels: seq<PriceLevel>, p: Price)
    ensures Lookup(ApplyLevels(side, levels), p)
         == (match LastQty(levels, p)
             case None => Lookup(side, p)
             case Some(q) => if q == 0.0 then None else Some(q))
  {
    if levels != [] {
      LookupApply(side, levels[..|levels| - 1], p);
    }
  }

  lemma {:induction false} LookupLadderOf(levels: seq<PriceLevel>, p: Price)
    ensures Lookup(LadderOf(levels), p) == LastQty(levels, p)
  {
    if levels != [] {
      LookupLadderOf(levels[..|levels| - 1], p);
    }
  }

  lemma {:induction false} LastQtyConcat(first: seq<PriceLevel>, second: seq<PriceLevel>, p: Price)
    ensures LastQty(first + second, p)
         == if LastQty(second, p).Some? then LastQty(second, p) else LastQty(first, p)
  {
    if second == [] {
      assert first + second == first;
    } else {
      var n := |second| - 1;
      assert (first + second)[..|first| + n] == first + second[..n];
      LastQtyConcat(first, second[..n], p);
    }
  }

  /** Applying two lists in turn is applying their concatenation: the last writer wins. */
  lemma ApplyConcat(side: Ladder, first: seq<PriceLevel>, second: seq<PriceLevel>)
    ensures ApplyLevels(side, first + second) == ApplyLevels(ApplyLevels(side, first), second)
  {
    var once := ApplyLevels(side, first + second);
    var twice := ApplyLevels(ApplyLevels(side, first), second);
    forall p ensures Lookup(once, p) == Lookup(twice, p) {
      LastQtyConcat(first, second, p);
      LookupApply(side, first + second, p);
      LookupApply(side, first, p);
      LookupApply(ApplyLevels(side, first), second, p);
    }
    SameLookupsSameLadder(once, twice);
  }

  /** A list absorbs any earlier list whose prices it covers, so an event may be applied to a
      snapshot that already reflects part of it. */
  lemma ApplyAbsorbs(side: Ladder, earlier: seq<PriceLevel>, later: seq<PriceLevel>)
    requires forall p :: LastQty(earlier, p).Some? ==> LastQty(later, p).Some?
    ensures ApplyLevels(ApplyLevels(side, earlier), later) == ApplyLevels(side, later)
  {
    var both := ApplyLevels(ApplyLevels(side, earlier), later);
    var only := ApplyLevels(side, later);
    forall p ensures Lookup(both, p) == Lookup(only, p) {
      LookupApply(side, earlier, p);
      LookupApply(ApplyLevels(side, earlier), later, p);
      LookupApply(side, later, p);
    }
    SameLookupsSameLadder(both, only);
  }

  lemma ApplyIdempotent(side: Ladder, levels: seq<PriceLevel>)
    ensures ApplyLevels(ApplyLevels(side, levels), levels) == ApplyLevels(side, levels)
  {
    ApplyAbsorbs(side, levels, levels);
  }

  predicate EndsOnZero(levels: seq<PriceLevel>, p: Price) {
    LastQty(levels, p) == Some(0.0)
  }

  /** The one way a loaded snapshot differs from applying its levels to an empty side: zero
      quantities are stored, so the two agree exactly when no price ends on quantity 0. */
  lemma SnapshotIsApplicationIffNoZero(levels: seq<PriceLevel>)
    ensures LadderOf(levels) == ApplyLevels(map[], levels)
        <==> forall p :: !EndsOnZero(levels, p)
  {
    var loaded, applied := LadderOf(levels), ApplyLevels(map[], levels);
    forall p
      ensures Lookup(loaded, p) == LastQty(levels, p)
      ensures Lookup(applied, p) == if EndsOnZero(levels, p) then None else LastQty(levels, p)
    {
      LookupLadderOf(levels, p);
      LookupApply(map[], levels, p);
    }
    if p :| EndsOnZero(levels, p) {
      assert Lookup(loaded, p) != Lookup(applied, p);
    } else {
      SameLookupsSameLadder(loaded, applied);
    }
  }
}
