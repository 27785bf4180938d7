/** Shared numeric and geometric vocabulary: 2-D vectors, colours and the
    Java conversions (int cast, Math.ceil, Math.max/min) the game code uses.
    Java doubles are modelled as exact reals. */
module Geometry {

  /** A point or displacement in world space (the game's Vector2D, used by value). */
  datatype Vec = Vec(x: real, y: real)

  function Plus(a: Vec, b: Vec): Vec { Vec(a.x + b.x, a.y + b.y) }

  function Minus(a: Vec, b: Vec): Vec { Vec(a.x - b.x, a.y - b.y) }

  function Scale(a: Vec, k: real): Vec { Vec(a.x * k, a.y * k) }

  /** Vector2D.normalize: divide by the length when it is positive, leave the
      vector alone otherwise. The square root is the parameter `root`. */
  function Normalize(v: Vec, root: real -> real): Vec
  {
    var length := root(v.x * v.x + v.y * v.y);
    if length > 0.0 then Vec(v.x / length, v.y / length) else v
  }

  /** An RGB colour as java.awt.Color is constructed in the game code. */
  datatype Color = Color(red: int, green: int, blue: int)

  /** Java's `(int) d` cast: rounds toward zero. */
  function Trunc(v: real): (n: int)
    ensures v >= 0.0 ==> n >= 0 && n as real <= v < n as real + 1.0
    ensures v < 0.0 ==> n <= 0 && n as real - 1.0 < v <= n as real
  {
    if v >= 0.0 then v.Floor else -((-v).Floor)
  }

  /** Java's `(int) Math.ceil(d)`: the least integer not below `v`. */
  function Ceil(v: real): (n: int)
    ensures n as real - 1.0 < v <= n as real
    ensures v >= 0.0 ==> n >= 0
  {
    if v.Floor as real == v then v.Floor else v.Floor + 1
  }

  function Max(a: real, b: real): real { if a >= b then a else b }

  function Min(a: real, b: real): real { if a <= b then a else b }

  /** `Math.max(lo, Math.min(v, hi))`: the point of [lo, hi] nearest to `v`. */
  function Clamp(v: real, lo: real, hi: real): (r: real)
    requires lo <= hi
    ensures lo <= r <= hi
    ensures lo <= v <= hi ==> r == v
    ensures v < lo ==> r == lo
    ensures v > hi ==> r == hi
  {
    Max(lo, Min(v, hi))
  }

  /** Squared Euclidean distance; `a.distanceTo(b) < d` is compared through squares. */
  function DistSq(a: Vec, b: Vec): real
  {
    (b.x - a.x) * (b.x - a.x) + (b.y - a.y) * (b.y - a.y)
  }

  /** `Math.sqrt(dsq) < limit` for an exact square root, stated without the root:
      a non-negative number is below `limit` exactly when `limit` is positive and
      its square exceeds `dsq`. */
  predicate RootBelow(dsq: real, limit: real)
  {
    limit > 0.0 && dsq < limit * limit
  }

  /** Whether two circles overlap: the distance between the centres is
      below the sum of the radii. */
  predicate Overlap(a: Vec, ra: real, b: Vec, rb: real)
  {
    RootBelow(DistSq(a, b), ra + rb)
  }

  /** The clamped point is the point of [lo, hi] nearest to `v`. */
  lemma ClampIsNearest(v: real, lo: real, hi: real, p: real)
    requires lo <= hi && lo <= p <= hi
    ensures (v - Clamp(v, lo, hi)) * (v - Clamp(v, lo, hi)) <= (v - p) * (v - p)
  {
    var q := Clamp(v, lo, hi);
    if v < lo {
      assert 0.0 < lo - v <= p - v;
      MonotoneSquare(lo - v, p - v);
    } else if v > hi {
      assert 0.0 < v - hi <= v - p;
      MonotoneSquare(v - hi, v - p);
    } else {
      assert q == v;
    }
  }

  lemma MonotoneSquare(a: real, b: real)
    requires 0.0 <= a <= b
    ensures a * a <= b * b
  {
    assert a * a <= a * b <= b * b;
  }
}
