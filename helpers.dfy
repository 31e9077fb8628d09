/** Unit conversion and range remapping shared by the generator (treeHelpers.h / global.h).
    The source templates are instantiated with float and double; here they are modelled over
    the reals, so rounding is not modelled. */
module TreeHelpers {

  /** The value of M_PI as written in math.h. */
  const Pi: real := 3.14159265358979323846

  /** Converts degrees to radians: a linear map sending 180 degrees to Pi. */
  function DegToRad(degrees: real): (radians: real)
    ensures radians * 180.0 == degrees * Pi
  {
    (Pi / 180.0) * degrees
  }

  /** Converts radians to degrees: a linear map sending Pi to 180 degrees. */
  function RadToDeg(radians: real): (degrees: real)
    ensures degrees * Pi == radians * 180.0
  {
    (180.0 / Pi) * radians
  }

  lemma DegToRadHalfTurn()
    ensures DegToRad(180.0) == Pi
  {
  }

  /** The two conversions undo each other in both directions. */
  lemma DegRadInverse(x: real)
    ensures DegToRad(RadToDeg(x)) == x
    ensures RadToDeg(DegToRad(x)) == x
  {
  }

  /** DegToRad is linear: it preserves sums and scalar multiples. */
  lemma DegToRadLinear(a: real, b: real, k: real)
    ensures DegToRad(a + b) == DegToRad(a) + DegToRad(b)
    ensures DegToRad(k * a) == k * DegToRad(a)
  {
  }

  function Abs(x: real): real
  {
    if x < 0.0 then -x else x
  }

  /** A variance times a draw u in [-1, 1], as the generator scales every random
      perturbation: never more than the variance's magnitude either way. */
  function Spread(variance: real, u: real): (r: real)
    requires -1.0 <= u <= 1.0
    ensures -Abs(variance) <= r <= Abs(variance)
  {
    ScaledUnit(variance, u);
    variance * u
  }

  /** base + variance * u for a draw u in [-1, 1]: within |variance| of base. */
  function Vary(base: real, variance: real, u: real): (r: real)
    requires -1.0 <= u <= 1.0
    ensures base - Abs(variance) <= r <= base + Abs(variance)
  {
    base + Spread(variance, u)
  }

  /** A quantity scaled by a draw in [-1, 1] stays within its own magnitude. */
  lemma ScaledUnit(k: real, u: real)
    requires -1.0 <= u <= 1.0
    ensures -Abs(k) <= k * u <= Abs(k)
  {
    var m := Abs(k);
    assert m * (1.0 - u) >= 0.0 && m * (u + 1.0) >= 0.0 by {
      ProductNonnegative(m, 1.0 - u);
      ProductNonnegative(m, u + 1.0);
    }
    assert k * u == m * u || k * u == -(m * u);
  }

  /** Maps value from the range [inner, outer] linearly onto [newInner, newOuter].
      The source divides by (outer - inner); every caller passes distinct bounds. */
  function ChangeRange(value: real, inner: real, outer: real, newInner: real, newOuter: real): (r: real)
    requires outer != inner
    ensures value == inner ==> r == newInner
    ensures value == outer ==> r == newOuter
    ensures inner < outer && newInner <= newOuter && inner <= value <= outer ==> newInner <= r <= newOuter
  {
    var scale := (newOuter - newInner) / (outer - inner);
    var r := (value - inner) * scale + newInner;
    assert value == outer ==> (value - inner) * scale == newOuter - newInner by {
      QuotientCancels(newOuter - newInner, outer - inner);
    }
    if inner < outer && newInner <= newOuter && inner <= value <= outer then
      ScaledWithin(value - inner, outer - inner, newOuter - newInner);
      r
    else
      r
  }

  /** A part x of a whole w, rescaled so that w becomes d, lies between 0 and d. */
  lemma ScaledWithin(x: real, w: real, d: real)
    requires 0.0 <= x <= w && 0.0 < w && 0.0 <= d
    ensures 0.0 <= x * (d / w) <= d
  {
    QuotientNonnegative(d, w);
    ScaleMonotone(x, w, d / w);
    QuotientCancels(d, w);
    ProductNonnegative(x, d / w);
  }

  /** ChangeRange is affine in its value: it maps a weighted mean of two values to the same
      weighted mean of their images. */
  lemma {:induction false} ChangeRangeAffine(v1: real, v2: real, t: real, inner: real, outer: real, a: real, b: real)
    requires outer != inner
    ensures ChangeRange(t * v1 + (1.0 - t) * v2, inner, outer, a, b)
         == t * ChangeRange(v1, inner, outer, a, b) + (1.0 - t) * ChangeRange(v2, inner, outer, a, b)
  {
    var s := (b - a) / (outer - inner);
    calc {
      ChangeRange(t * v1 + (1.0 - t) * v2, inner, outer, a, b);
      (t * v1 + (1.0 - t) * v2 - inner) * s + a;
      { assert t * v1 + (1.0 - t) * v2 - inner == t * (v1 - inner) + (1.0 - t) * (v2 - inner); }
      (t * (v1 - inner) + (1.0 - t) * (v2 - inner)) * s + a;
      t * ((v1 - inner) * s + a) + (1.0 - t) * ((v2 - inner) * s + a);
    }
  }

  /** Over an increasing source range and a non-decreasing target range, ChangeRange is monotone. */
  lemma {:induction false} ChangeRangeMonotone(v1: real, v2: real, inner: real, outer: real, a: real, b: real)
    requires inner < outer && a <= b && v1 <= v2
    ensures ChangeRange(v1, inner, outer, a, b) <= ChangeRange(v2, inner, outer, a, b)
  {
    var s := (b - a) / (outer - inner);
    QuotientNonnegative(b - a, outer - inner);
    ProductNonnegative(v2 - v1, s);
    assert ChangeRange(v2, inner, outer, a, b) - ChangeRange(v1, inner, outer, a, b) == (v2 - v1) * s;
  }

  lemma QuotientNonnegative(x: real, y: real)
    requires 0.0 <= x && 0.0 < y
    ensures 0.0 <= x / y
  {
    QuotientCancels(x, y);
  }

  lemma ScaleMonotone(x: real, y: real, k: real)
    requires x <= y && 0.0 <= k
    ensures x * k <= y * k
  {
    assert y * k - x * k == (y - x) * k;
  }

  lemma QuotientCancels(x: real, y: real)
    requires y != 0.0
    ensures y * (x / y) == x
  { }

  lemma ProductNonnegative(x: real, k: real)
    requires 0.0 <= x && 0.0 <= k
    ensures 0.0 <= x * k
  { }
}
