/**
 The few numeric helpers of the p5 library the sketch relies on: `min`, `max`,
 `constrain`, `map`, and the ranges its `random` function can return. Random
 draws are not generated here; a draw is an argument of the operation that
 consumes it, constrained by the predicates below.
 */
module P5Math {

  /** p5's TWO_PI as a double. */
  const TwoPi: real := 6.283185307179586

  function Min(a: real, b: real): real { if a <= b then a else b }

  function Max(a: real, b: real): real { if a <= b then b else a }

  /** p5's `constrain(v, lo, hi)`, that is `max(min(v, hi), lo)`. */
  function Constrain(v: real, lo: real, hi: real): (r: real)
    ensures lo <= hi ==> lo <= r <= hi
    ensures lo <= v <= hi ==> r == v
    ensures v < lo ==> r == lo
    ensures lo <= hi < v ==> r == hi
  {
    Max(Min(v, hi), lo)
  }

  /** p5's `map(v, start1, stop1, start2, stop2)` without clamping: the
      affine map sending start1 to start2 and stop1 to stop2. */
  function MapRange(v: real, start1: real, stop1: real, start2: real, stop2: real): real
    requires start1 != stop1
  {
    (v - start1) / (stop1 - start1) * (stop2 - start2) + start2
  }

  /** `map` sends the two ends of its source range to the two ends of its
      target range, and a value inside the source range lands inside the
      target range. */
  lemma MapRangeWithin(v: real, start1: real, stop1: real, start2: real, stop2: real)
    requires start1 < stop1
    ensures v == start1 ==> MapRange(v, start1, stop1, start2, stop2) == start2
    ensures v == stop1 ==> MapRange(v, start1, stop1, start2, stop2) == stop2
    ensures start1 <= v <= stop1 && start2 <= stop2 ==>
      start2 <= MapRange(v, start1, stop1, start2, stop2) <= stop2
  {
    if start1 <= v <= stop1 && start2 <= stop2 {
      var a, b := v - start1, stop1 - start1;
      var t := a / b;
      assert t * b == a;
      assert 0.0 <= t <= 1.0;
      var w := stop2 - start2;
      assert 0.0 <= w;
      assert t * w <= 1.0 * w;
    }
  }

  /** The values p5's `random(lo, hi)` can return: it swaps the bounds when
      `lo > hi`, then returns a value in `[min, max)`, or `min` itself when the
      two bounds coincide. */
  predicate Drawn(v: real, lo: real, hi: real) {
    Min(lo, hi) <= v && (v < Max(lo, hi) || v == Min(lo, hi))
  }

  /** The values p5's one-argument `random(n)` can return: `n` times a value
      in `[0, 1)`. */
  predicate DrawnBelow(v: real, n: real) {
    if 0.0 <= n then 0.0 <= v && (v < n || v == 0.0) else n < v <= 0.0
  }
}
