// random.Random: a draw is an arbitrary value of its range. Callers see nothing but the range, so
// whatever is proved of them holds for every seed and every sequence of draws.
module Draws {

  /** randint(lo, hi), both ends included; the call raises when the range is empty. */
  method RandInt(lo: int, hi: int) returns (n: int)
    requires lo <= hi
    ensures lo <= n <= hi
  {
    n :| lo <= n <= hi;
  }

  /** random() < probability, where random() lies in [0, 1). */
  method Chance(probability: real) returns (hit: bool)
    ensures probability <= 0.0 ==> !hit
    ensures probability >= 1.0 ==> hit
  {
    var draw: real :| 0.0 <= draw < 1.0;
    hit := draw < probability;
  }

  /** uniform(0, hi). */
  method Uniform(hi: real) returns (draw: real)
    requires hi >= 0.0
    ensures 0.0 <= draw <= hi
  {
    draw :| 0.0 <= draw <= hi;
  }
}
