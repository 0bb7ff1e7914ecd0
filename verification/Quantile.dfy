// _quantile_from_buckets (scripts/stress_replay.py): the interpolated quantile of a cumulative histogram.
module Quantile {

  /** A bucket boundary: the last one is +inf. */
  datatype Bound = Finite(le: real) | Infinite

  datatype Bucket = Bucket(bound: Bound, count: real)

  datatype Estimate = NotANumber | AboveAll | At(value: real)

  /** The first bucket from i on whose cumulative count reaches the target. */
  function FirstReaching(buckets: seq<Bucket>, target: real, i: nat): (k: nat)
    requires i <= |buckets|
    ensures i <= k <= |buckets|
    ensures k < |buckets| ==> buckets[k].count >= target
    ensures forall j :: i <= j < k ==> buckets[j].count < target
    decreases |buckets| - i
  {
    if i == |buckets| || buckets[i].count >= target then i else FirstReaching(buckets, target, i + 1)
  }

  function PrevCount(buckets: seq<Bucket>, k: nat): real
    requires k <= |buckets|
  {
    if k == 0 then 0.0 else buckets[k - 1].count
  }

  /** The lower boundary of a bucket; nothing finite lies above the infinite one. */
  function PrevBound(buckets: seq<Bucket>, k: nat): Bound
    requires k <= |buckets|
  {
    if k == 0 then Finite(0.0) else buckets[k - 1].bound
  }

  function Interpolate(lo: real, hi: real, before: real, count: real, target: real): real
    requires count != before
  {
    lo + (target - before) / (count - before) * (hi - lo)
  }

  /** The estimate read off bucket k. */
  function EstimateIn(buckets: seq<Bucket>, k: nat, target: real): Estimate
    requires k < |buckets| && PrevBound(buckets, k).Finite?
  {
    var b := buckets[k];
    if b.bound.Infinite? then AboveAll
    else if b.count == PrevCount(buckets, k) then At(b.bound.le)
    else At(Interpolate(PrevBound(buckets, k).le, b.bound.le, PrevCount(buckets, k), b.count, target))
  }

  /** What the scan needs: some bucket, and +inf as the boundary of none but the last. */
  predicate Scannable(buckets: seq<Bucket>) {
    buckets != [] && forall k :: 0 <= k < |buckets| - 1 ==> buckets[k].bound.Finite?
  }

  /** Cumulative counts, ascending boundaries from 0 up, the last one infinite: what a Prometheus
      histogram exposes. */
  predicate Histogram(buckets: seq<Bucket>) {
    && Scannable(buckets)
    && (forall k :: 0 <= k < |buckets| ==> PrevCount(buckets, k) <= buckets[k].count)
    && (forall k :: 0 <= k < |buckets| - 1 ==>
          PrevBound(buckets, k).Finite? && PrevBound(buckets, k).le <= buckets[k].bound.le)
    && buckets[|buckets| - 1].bound.Infinite?
  }

  /** The estimate of the value whose rank is the target. */
  function EstimateAt(buckets: seq<Bucket>, target: real): Estimate
    requires Scannable(buckets)
  {
    var k, last := FirstReaching(buckets, target, 0), buckets[|buckets| - 1].bound;
    if k < |buckets| then EstimateIn(buckets, k, target)
    else if last.Infinite? then AboveAll else At(last.le)
  }

  /** The rank the quantile asks for. */
  function Rank(quantile: real, total: real): real {
    quantile * total
  }

  function Estimated(buckets: seq<Bucket>, quantile: real): Estimate
    requires Scannable(buckets)
  {
    var total := buckets[|buckets| - 1].count;
    if total <= 0.0 then NotANumber else EstimateAt(buckets, Rank(quantile, total))
  }

  method QuantileFromBuckets(buckets: seq<Bucket>, quantile: real) returns (e: Estimate)
    requires Scannable(buckets)
    ensures e == Estimated(buckets, quantile)
  {
    var total := buckets[|buckets| - 1].count;
    if total <= 0.0 {
      return NotANumber;
    }
    e := ScanBuckets(buckets, Rank(quantile, total));
  }

  method ScanBuckets(buckets: seq<Bucket>, target: real) returns (e: Estimate)
    requires Scannable(buckets)
    ensures e == EstimateAt(buckets, target)
  {
    var prevLe, prevCount := 0.0, 0.0;
    for i := 0 to |buckets|
      invariant prevCount == PrevCount(buckets, i)
      invariant i < |buckets| ==> PrevBound(buckets, i) == Finite(prevLe)
      invariant FirstReaching(buckets, target, 0) == FirstReaching(buckets, target, i)
    {
      var b := buckets[i];
      if b.count >= target {
        if b.bound.Infinite? {
          return AboveAll;
        }
        if b.count == prevCount {
          return At(b.bound.le);
        }
        return At(Interpolate(prevLe, b.bound.le, prevCount, b.count, target));
      }
      if b.bound.Finite? {
        prevLe := b.bound.le;
      }
      prevCount := b.count;
    }
    var last := buckets[|buckets| - 1].bound;
    return if last.Infinite? then AboveAll else At(last.le);
  }

  predicate AtMost(a: Estimate, b: Estimate) {
    match (a, b)
    case (At(x), At(y)) => x <= y
    case (NotANumber, _) => b == NotANumber
    case (_, AboveAll) => true
    case _ => false
  }

  lemma FractionGrows(before: real, count: real, t1: real, t2: real)
    requires before < count && t1 <= t2
    ensures (t1 - before) / (count - before) <= (t2 - before) / (count - before)
    ensures t2 <= count ==> (t2 - before) / (count - before) <= 1.0
    ensures before <= t1 ==> 0.0 <= (t1 - before) / (count - before)
  {
  }

  lemma BlendGrows(lo: real, hi: real, f: real, g: real)
    requires f <= g && lo <= hi
    ensures lo + f * (hi - lo) <= lo + g * (hi - lo)
    ensures g <= 1.0 ==> lo + g * (hi - lo) <= hi
    ensures 0.0 <= f ==> lo <= lo + f * (hi - lo)
  {
    var d := hi - lo;
    assert (g - f) * d >= 0.0;
    if g <= 1.0 { assert (1.0 - g) * d >= 0.0; }
    if 0.0 <= f { assert f * d >= 0.0; }
  }

  lemma InterpolateGrows(lo: real, hi: real, before: real, count: real, t1: real, t2: real)
    requires before < count && t1 <= t2 && lo <= hi
    ensures Interpolate(lo, hi, before, count, t1) <= Interpolate(lo, hi, before, count, t2)
    ensures t2 <= count ==> Interpolate(lo, hi, before, count, t2) <= hi
    ensures before <= t1 ==> lo <= Interpolate(lo, hi, before, count, t1)
  {
    FractionGrows(before, count, t1, t2);
    BlendGrows(lo, hi, (t1 - before) / (count - before), (t2 - before) / (count - before));
  }

  /** The value the estimates of a bucket never exceed. */
  lemma EstimateBelowBound(buckets: seq<Bucket>, k: nat, target: real)
    requires Histogram(buckets) && k < |buckets| && PrevBound(buckets, k).Finite? && target <= buckets[k].count
    requires buckets[k].bound.Finite?
    ensures EstimateIn(buckets, k, target).At? && EstimateIn(buckets, k, target).value <= buckets[k].bound.le
  {
    if buckets[k].count != PrevCount(buckets, k) {
      InterpolateGrows(PrevBound(buckets, k).le, buckets[k].bound.le, PrevCount(buckets, k), buckets[k].count,
                       target, target);
    }
  }

  lemma {:induction false} BoundsAscend(buckets: seq<Bucket>, i: nat, j: nat)
    requires Histogram(buckets) && i <= j < |buckets| - 1
    ensures buckets[i].bound.le <= buckets[j].bound.le
    decreases j
  {
    if i < j {
      BoundsAscend(buckets, i, j - 1);
      assert PrevBound(buckets, j) == buckets[j - 1].bound;
    }
  }

  lemma FirstReachingGrows(buckets: seq<Bucket>, t1: real, t2: real)
    requires t1 <= t2
    ensures FirstReaching(buckets, t1, 0) <= FirstReaching(buckets, t2, 0)
  {
  }

  lemma {:induction false} MonotoneInTarget(buckets: seq<Bucket>, t1: real, t2: real)
    requires Histogram(buckets) && t1 <= t2
    ensures AtMost(EstimateAt(buckets, t1), EstimateAt(buckets, t2))
  {
    var k1, k2 := FirstReaching(buckets, t1, 0), FirstReaching(buckets, t2, 0);
    FirstReachingGrows(buckets, t1, t2);
    if k2 < |buckets| - 1 {
      var lo, hi := PrevBound(buckets, k2).le, buckets[k2].bound.le;
      if k1 == k2 {
        if buckets[k2].count != PrevCount(buckets, k2) {
          InterpolateGrows(lo, hi, PrevCount(buckets, k2), buckets[k2].count, t1, t2);
        }
      } else {
        EstimateBelowBound(buckets, k1, t1);
        BoundsAscend(buckets, k1, k2 - 1);
        InterpolateGrows(lo, hi, PrevCount(buckets, k2), buckets[k2].count, t2, t2);
      }
    }
  }

  lemma FractionTimes(target: real, before: real, count: real)
    requires count != before
    ensures (target - before) / (count - before) * (count - before) == target - before
  {
  }

  lemma Swapped(fraction: real, width: real, counts: real)
    ensures fraction * width * counts == fraction * counts * width
  {
  }

  /** The interpolated value divides the bucket's width as the target divides its count. */
  lemma InterpolateIsLinear(lo: real, hi: real, before: real, count: real, target: real) returns (value: real)
    requires count != before
    ensures value == Interpolate(lo, hi, before, count, target)
    ensures (value - lo) * (count - before) == (target - before) * (hi - lo)
  {
    var fraction := (target - before) / (count - before);
    value := lo + fraction * (hi - lo);
    Swapped(fraction, hi - lo, count - before);
    FractionTimes(target, before, count);
  }

  lemma RankIsProduct(quantile: real, total: real)
    ensures Rank(quantile, total) == quantile * total
  {
  }

  /** The estimate, spelled out, of any buckets and any quantile: the value that divides the width of the
      first bucket reaching the target as the target divides its count. */
  lemma EstimateSpelledOut(buckets: seq<Bucket>, quantile: real) returns (k: nat, target: real)
    requires Scannable(buckets)
    ensures target == quantile * buckets[|buckets| - 1].count && k <= |buckets|
    ensures forall j :: 0 <= j < k ==> buckets[j].count < target
    ensures k < |buckets| ==> buckets[k].count >= target
    ensures buckets[|buckets| - 1].count <= 0.0 <==> Estimated(buckets, quantile) == NotANumber
    ensures buckets[|buckets| - 1].count > 0.0 ==>
      var b := buckets[if k < |buckets| then k else k - 1];
      var lo := if 0 < k < |buckets| then buckets[k - 1].bound.le else 0.0;
      var before := if k == 0 then 0.0 else buckets[k - 1].count;
      if b.bound.Infinite? then Estimated(buckets, quantile) == AboveAll
      else if k == |buckets| || b.count == before then Estimated(buckets, quantile) == At(b.bound.le)
      else
        Estimated(buckets, quantile).At? &&
        (Estimated(buckets, quantile).value - lo) * (b.count - before) == (target - before) * (b.bound.le - lo)
  {
    var total := buckets[|buckets| - 1].count;
    RankIsProduct(quantile, total);
    target := Rank(quantile, total);
    k := FirstReaching(buckets, target, 0);
    if k < |buckets| && buckets[k].bound.Finite? && buckets[k].count != PrevCount(buckets, k) {
      var value := InterpolateIsLinear(PrevBound(buckets, k).le, buckets[k].bound.le, PrevCount(buckets, k),
                                       buckets[k].count, target);
    }
  }

  lemma RankGrows(q1: real, q2: real, total: real)
    requires q1 <= q2 && total > 0.0
    ensures Rank(q1, total) <= Rank(q2, total)
  {
    assert (q2 - q1) * total >= 0.0;
  }

  lemma RankWithin(quantile: real, total: real)
    requires 0.0 < quantile <= 1.0 && total > 0.0
    ensures 0.0 < Rank(quantile, total) <= total
  {
    assert (1.0 - quantile) * total >= 0.0;
  }

  /** For a quantile in (0, 1] the estimate lies in the bucket that contains the rank. */
  lemma LandsInItsBucket(buckets: seq<Bucket>, quantile: real)
    requires Histogram(buckets) && buckets[|buckets| - 1].count > 0.0 && 0.0 < quantile <= 1.0
    ensures var target := Rank(quantile, buckets[|buckets| - 1].count);
      var k := FirstReaching(buckets, target, 0);
      && k < |buckets| && PrevBound(buckets, k).Finite?
      && PrevCount(buckets, k) < target <= buckets[k].count
      && (match Estimated(buckets, quantile)
          case At(value) => buckets[k].bound.Finite? && PrevBound(buckets, k).le <= value <= buckets[k].bound.le
          case AboveAll => buckets[k].bound.Infinite?
          case NotANumber => false)
  {
    var total := buckets[|buckets| - 1].count;
    RankWithin(quantile, total);
    var target := Rank(quantile, total);
    var k := FirstReaching(buckets, target, 0);
    if buckets[k].bound.Finite? {
      InterpolateGrows(PrevBound(buckets, k).le, buckets[k].bound.le, PrevCount(buckets, k), buckets[k].count,
                       target, target);
    }
  }

  /** A higher quantile never gets a lower estimate. */
  lemma QuantileIsMonotone(buckets: seq<Bucket>, q1: real, q2: real)
    requires Histogram(buckets) && q1 <= q2
    ensures AtMost(Estimated(buckets, q1), Estimated(buckets, q2))
    ensures Estimated(buckets, q1).At? && Estimated(buckets, q2).At? ==>
              Estimated(buckets, q1).value <= Estimated(buckets, q2).value
    ensures Estimated(buckets, q1).AboveAll? ==> Estimated(buckets, q2).AboveAll?
  {
    var total := buckets[|buckets| - 1].count;
    if total > 0.0 {
      RankGrows(q1, q2, total);
      MonotoneInTarget(buckets, Rank(q1, total), Rank(q2, total));
    }
  }
}
