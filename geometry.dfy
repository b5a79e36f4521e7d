/** Points in the plane with exact real coordinates, and the distances the measures use. */
module Geometry {

  datatype Point = Point(x: real, y: real)

  /** between(o, a, b) is the signed angle between the rays o->a and o->b, as
      get_angle_between(Ray(o, a), Ray(o, b)) computes it; it is supplied by the caller. */
  type RayAngle = (Point, Point, Point) -> real

  /** Absolute value, as abs / np.abs on one number. */
  function Abs(x: real): (r: real)
    ensures r >= 0.0 && (r == x || r == -x)
  {
    if x < 0.0 then -x else x
  }

  /** Squared Euclidean distance. Wherever the source compares Euclidean distances the
      model compares squared ones: sqrt is strictly increasing and is zero exactly at zero. */
  function SqDist(p: Point, q: Point): real
  {
    (p.x - q.x) * (p.x - q.x) + (p.y - q.y) * (p.y - q.y)
  }

  /** A product with a non-zero factor is zero only through the other factor. */
  lemma CancelNonzero(d: real, e: real)
    requires d != 0.0 && d * e == 0.0
    ensures e == 0.0
  {
  }

  /** Division by a non-zero number is undone by multiplying back. */
  lemma QuotientTimesDivisor(n: real, d: real)
    requires d != 0.0
    ensures (n / d) * d == n
  {
  }

  /** Equal numbers scaled alike stay equal; the solver does not rewrite inside products
      unaided. */
  lemma ScaleEqual(c: real, u: real, v: real)
    requires u == v
    ensures c * u == c * v
  {
  }

  /** Dividing by a positive number keeps the sign of the product. */
  lemma SignOfFactor(a: real, t: real)
    requires t > 0.0
    ensures a * t <= 0.0 ==> a <= 0.0
    ensures a * t >= 0.0 ==> a >= 0.0
  {
  }

  lemma SqDistSymmetric(p: Point, q: Point)
    ensures SqDist(p, q) == SqDist(q, p)
  {
  }

  /** The point halfway between p and q. */
  function Midpoint(p: Point, q: Point): Point
  {
    Point((p.x + q.x) / 2.0, (p.y + q.y) / 2.0)
  }

  /** The midpoint is the centre of the circle on pq as diameter. */
  lemma MidpointIsCentre(p: Point, q: Point)
    ensures Midpoint(p, q) == Midpoint(q, p)
    ensures SqDist(Midpoint(p, q), p) == SqDist(Midpoint(p, q), q)
    ensures 4.0 * SqDist(Midpoint(p, q), p) == SqDist(p, q)
  {
  }

  /** Every point shifted by (dx, dy). */
  function Translated(ps: seq<Point>, dx: real, dy: real): (r: seq<Point>)
    ensures |r| == |ps|
  {
    seq(|ps|, i requires 0 <= i < |ps| => Point(ps[i].x + dx, ps[i].y + dy))
  }

  /** Every point with its coordinates exchanged. */
  function Transposed(ps: seq<Point>): (r: seq<Point>)
    ensures |r| == |ps|
  {
    seq(|ps|, i requires 0 <= i < |ps| => Point(ps[i].y, ps[i].x))
  }

  function Xs(ps: seq<Point>): (r: seq<real>)
    ensures |r| == |ps| && forall i :: 0 <= i < |ps| ==> r[i] == ps[i].x
  {
    seq(|ps|, i requires 0 <= i < |ps| => ps[i].x)
  }

  function Ys(ps: seq<Point>): (r: seq<real>)
    ensures |r| == |ps| && forall i :: 0 <= i < |ps| ==> r[i] == ps[i].y
  {
    seq(|ps|, i requires 0 <= i < |ps| => ps[i].y)
  }
}
