/** Skyum's minimum bounding circle: the cyclic triple generator, the circumcircle of a
    triple with its fallbacks, the (radius, angle) selection and the shrinking loop. */
module Minbc {
  import opened Geometry
  import opened Lists
  import opened Results

  /** The binary64 value of math.pi / 2. */
  const HalfPi: real := 1.5707963267948965579989817342720925807952880859375

  /** Three consecutive hull vertices, the most recent first: (l[k], l[k-1], l[k-2]). */
  datatype Triple = Triple(lead: Point, middle: Point, trail: Point)

  /** A circle by its centre and the square of its radius. */
  datatype Circle = Circle(center: Point, sqRadius: real)

  /** The circle a triple yields, or the value with radius and centre -inf that the
      zero-by-zero division of the closed form produces. */
  datatype Circumcircle = Defined(circle: Circle) | Undefined

  datatype MbcError =
    | DuplicateNeighbour  // a triple with equal neighbours leaves the result unassigned
    | DivisionByZero      // the closed form divides a non-zero numerator by zero
    | TooFewPoints        // fewer than two points: the triple generator or the selection has nothing to index

  /** _angle(p, q, r): the unsigned angle at q between the rays to p and to r. */
  function Angle(between: RayAngle, p: Point, q: Point, r: Point): (a: real)
    ensures a >= 0.0
    ensures a == 0.0 <==> between(q, p, r) == 0.0
  {
    Abs(between(q, p, r))
  }

  /** The angle a triple contributes: at its middle vertex, between lead and trail. */
  function TripleAngle(between: RayAngle, t: Triple): (a: real)
    ensures a >= 0.0
    ensures a == 0.0 <==> between(t.middle, t.lead, t.trail) == 0.0
  {
    Angle(between, t.lead, t.middle, t.trail)
  }

  // The closed form of the circumcentre of A, B, C.

  function Denominator(a: Point, b: Point, c: Point): real
  {
    2.0 * (a.x * (b.y - c.y) + b.x * (c.y - a.y) + c.x * (a.y - b.y))
  }

  function NumeratorX(a: Point, b: Point, c: Point): real
  {
    (a.x * a.x + a.y * a.y) * (b.y - c.y) + (b.x * b.x + b.y * b.y) * (c.y - a.y) + (c.x * c.x + c.y * c.y) * (a.y - b.y)
  }

  function NumeratorY(a: Point, b: Point, c: Point): real
  {
    (a.x * a.x + a.y * a.y) * (c.x - b.x) + (b.x * b.x + b.y * b.y) * (a.x - c.x) + (c.x * c.x + c.y * c.y) * (b.x - a.x)
  }

  function Max3(a: real, b: real, c: real): (m: real)
    ensures a <= m && b <= m && c <= m
    ensures m == a || m == b || m == c
  {
    if a >= b && a >= c then a else if b >= c then b else c
  }

  /** _circle(A, B, C) for a triple (A, B, C) = (lead, middle, trail). Whatever circle it
      defines passes through A and B; only the zero-by-zero division leaves it undefined. */
  function CircleOf(between: RayAngle, t: Triple): (r: Result<Circumcircle, MbcError>)
    ensures r.Success? ==> t.lead != t.middle && t.middle != t.trail
    ensures r.Failure? ==> r.error == DuplicateNeighbour || r.error == DivisionByZero
    ensures r.Success? && r.value.Defined? ==>
      SqDist(r.value.circle.center, t.lead) == r.value.circle.sqRadius &&
      SqDist(r.value.circle.center, t.middle) == r.value.circle.sqRadius
  {
    var a, b, c := t.lead, t.middle, t.trail;
    if a == b || b == c then
      Failure(DuplicateNeighbour)
    else if Angle(between, a, b, c) == 0.0 then
      MidpointIsCentre(a, b);
      Success(Defined(Circle(Midpoint(a, b), SqDist(a, b) / 4.0)))
    else
      var d := Denominator(a, b, c);
      if d == 0.0 then
        if NumeratorX(a, b, c) == 0.0 then Success(Undefined) else Failure(DivisionByZero)
      else
        var o := Circumcenter(a, b, c);
        Success(Defined(Circle(o, Max3(SqDist(o, a), SqDist(o, b), SqDist(o, c)))))
  }

  /** The duplicate-neighbour failure happens exactly when A = B or B = C. */
  lemma DuplicateIff(between: RayAngle, t: Triple)
    ensures CircleOf(between, t) == Failure(DuplicateNeighbour) <==> t.lead == t.middle || t.middle == t.trail
  {
  }

  /** Collinear branch: the circle on AB as diameter, whatever C is. */
  lemma CollinearCircle(between: RayAngle, t: Triple)
    requires t.lead != t.middle && t.middle != t.trail
    requires between(t.middle, t.lead, t.trail) == 0.0
    ensures CircleOf(between, t).Success? && CircleOf(between, t).value.Defined?
    ensures var k := CircleOf(between, t).value.circle;
      SqDist(k.center, t.lead) == k.sqRadius && SqDist(k.center, t.middle) == k.sqRadius &&
      4.0 * k.sqRadius == SqDist(t.lead, t.middle)
  {
    MidpointIsCentre(t.lead, t.middle);
  }

  /** A zero denominator means A, B, C are collinear; the circle is then undefined when
      the x numerator vanishes too and the division fails otherwise. */
  lemma ZeroDenominator(between: RayAngle, t: Triple)
    requires t.lead != t.middle && t.middle != t.trail
    requires between(t.middle, t.lead, t.trail) != 0.0
    requires Denominator(t.lead, t.middle, t.trail) == 0.0
    ensures CircleOf(between, t) == Success(Undefined) <==> NumeratorX(t.lead, t.middle, t.trail) == 0.0
    ensures CircleOf(between, t) == Failure(DivisionByZero) <==> NumeratorX(t.lead, t.middle, t.trail) != 0.0
  {
  }

  /** The bisector of p and q, multiplied out: d times the difference of the squared
      distances from (u, v) to p and to q, with u * d == nx and v * d == ny. */
  lemma ScaledBisector(p: Point, q: Point, u: real, v: real, d: real, nx: real, ny: real)
    requires u * d == nx && v * d == ny
    ensures d * (SqDist(Point(u, v), p) - SqDist(Point(u, v), q))
         == 2.0 * nx * (q.x - p.x) + 2.0 * ny * (q.y - p.y) + d * (p.x * p.x + p.y * p.y - q.x * q.x - q.y * q.y)
  {
    calc {
      d * (SqDist(Point(u, v), p) - SqDist(Point(u, v), q));
      d * (2.0 * u * (q.x - p.x) + 2.0 * v * (q.y - p.y) + (p.x * p.x + p.y * p.y - q.x * q.x - q.y * q.y));
      2.0 * (u * d) * (q.x - p.x) + 2.0 * (v * d) * (q.y - p.y) + d * (p.x * p.x + p.y * p.y - q.x * q.x - q.y * q.y);
    }
  }

  /** The closed-form numerators satisfy the bisector equation of A and B ... */
  lemma BisectorAB(a: Point, b: Point, c: Point)
    ensures 2.0 * NumeratorX(a, b, c) * (b.x - a.x) + 2.0 * NumeratorY(a, b, c) * (b.y - a.y)
         + Denominator(a, b, c) * (a.x * a.x + a.y * a.y - b.x * b.x - b.y * b.y) == 0.0
  {
  }

  /** ... and that of B and C. */
  lemma BisectorBC(a: Point, b: Point, c: Point)
    ensures 2.0 * NumeratorX(a, b, c) * (c.x - b.x) + 2.0 * NumeratorY(a, b, c) * (c.y - b.y)
         + Denominator(a, b, c) * (b.x * b.x + b.y * b.y - c.x * c.x - c.y * c.y) == 0.0
  {
  }

  /** The point (nx / d, ny / d), when nx, ny and d satisfy the bisector equation of p and q
      scaled by d, is as far from p as from q. */
  lemma OnBisector(p: Point, q: Point, d: real, nx: real, ny: real)
    requires d != 0.0
    requires 2.0 * nx * (q.x - p.x) + 2.0 * ny * (q.y - p.y) + d * (p.x * p.x + p.y * p.y - q.x * q.x - q.y * q.y) == 0.0
    ensures SqDist(Point(nx / d, ny / d), p) == SqDist(Point(nx / d, ny / d), q)
  {
    var u, v := nx / d, ny / d;
    QuotientTimesDivisor(nx, d);
    QuotientTimesDivisor(ny, d);
    ScaledBisector(p, q, u, v, d, nx, ny);
    CancelNonzero(d, SqDist(Point(u, v), p) - SqDist(Point(u, v), q));
  }

  /** The closed-form point is as far from A as from B ... */
  lemma CenterEquidistantAB(a: Point, b: Point, c: Point)
    requires Denominator(a, b, c) != 0.0
    ensures var o := Point(NumeratorX(a, b, c) / Denominator(a, b, c), NumeratorY(a, b, c) / Denominator(a, b, c));
      SqDist(o, a) == SqDist(o, b)
  {
    BisectorAB(a, b, c);
    OnBisector(a, b, Denominator(a, b, c), NumeratorX(a, b, c), NumeratorY(a, b, c));
  }

  /** ... and as far from B as from C. */
  lemma CenterEquidistantBC(a: Point, b: Point, c: Point)
    requires Denominator(a, b, c) != 0.0
    ensures var o := Point(NumeratorX(a, b, c) / Denominator(a, b, c), NumeratorY(a, b, c) / Denominator(a, b, c));
      SqDist(o, b) == SqDist(o, c)
  {
    BisectorBC(a, b, c);
    OnBisector(b, c, Denominator(a, b, c), NumeratorX(a, b, c), NumeratorY(a, b, c));
  }

  /** The closed-form centre, where the denominator is not zero: the point on the
      bisectors of AB and of BC, hence as far from A as from B and from C. */
  function Circumcenter(a: Point, b: Point, c: Point): (o: Point)
    requires Denominator(a, b, c) != 0.0
    ensures SqDist(o, a) == SqDist(o, b) && SqDist(o, b) == SqDist(o, c)
  {
    CenterEquidistantAB(a, b, c);
    CenterEquidistantBC(a, b, c);
    Point(NumeratorX(a, b, c) / Denominator(a, b, c), NumeratorY(a, b, c) / Denominator(a, b, c))
  }

  /** The closed-form centre is equidistant from A, B and C, so the largest of the three
      distances is the common one. */
  lemma CircumcenterEquidistant(between: RayAngle, t: Triple)
    requires t.lead != t.middle && t.middle != t.trail
    requires between(t.middle, t.lead, t.trail) != 0.0
    requires Denominator(t.lead, t.middle, t.trail) != 0.0
    ensures CircleOf(between, t).Success? && CircleOf(between, t).value.Defined?
    ensures var k := CircleOf(between, t).value.circle;
      SqDist(k.center, t.lead) == k.sqRadius && SqDist(k.center, t.middle) == k.sqRadius &&
      SqDist(k.center, t.trail) == k.sqRadius
  {
    var a, b, c := t.lead, t.middle, t.trail;
    var o := Circumcenter(a, b, c);
    assert CircleOf(between, t) == Success(Defined(Circle(o, Max3(SqDist(o, a), SqDist(o, b), SqDist(o, c)))));
  }

  /** k mod n, by repeated subtraction. */
  function Wrap(k: nat, n: nat): (c: nat)
    requires n >= 1
    ensures c < n
  {
    if k < n then k else Wrap(k - n, n)
  }

  lemma {:induction false} WrapSuccessor(k: nat, n: nat)
    requires n >= 1
    ensures Wrap(k + 1, n) == if Wrap(k, n) + 1 < n then Wrap(k, n) + 1 else 0
  {
    if k >= n {
      WrapSuccessor(k - n, n);
    }
  }

  /** The k-th triple _nples(l) yields, counting from 0: (l[k], l[k-1], l[k-2]) with the
      indices taken modulo len(l); l[-1] and l[-2] are read as Python reads them. */
  function KthTriple(l: seq<Point>, k: nat): (t: Triple)
    requires |l| >= 2
    ensures t.lead in l && t.middle in l && t.trail in l
  {
    var c := Wrap(k, |l|);
    Triple(l[c], l[PyIndex(|l|, c - 1)], l[PyIndex(|l|, c - 2)])
  }

  /** The generator repeats with period len(l), so the angle pass and the circle pass,
      which draw len(l) triples each from one generator, see the same triple at index k. */
  lemma KthTriplePeriodic(l: seq<Point>, k: nat)
    requires |l| >= 2
    ensures KthTriple(l, k + |l|) == KthTriple(l, k)
  {
  }

  /** The first len(l) triples, written out: triple k has l[k] first, and its middle vertex
      sits at Python index k - 1, which for k = 0 is the last element. */
  lemma KthTripleInRange(l: seq<Point>, k: nat)
    requires 2 <= |l| && k < |l|
    ensures KthTriple(l, k).lead == l[k]
    ensures KthTriple(l, k).middle == l[PyIndex(|l|, k - 1)] == l[if k == 0 then |l| - 1 else k - 1]
    ensures KthTriple(l, k).trail == l[if k >= 2 then k - 2 else |l| + k - 2]
  {
  }

  /** The generator _nples(l, 3): itertools.cycle over l, and the two items before the
      current one, most recent first. */
  class TripleCycle {
    const items: seq<Point>
    var cursor: nat           // where cycle(l) stands
    var previous: seq<Point>  // [l[k-1], l[k-2]] once k triples have been yielded
    ghost var yielded: nat

    ghost predicate Valid()
      reads this
    {
      |items| >= 2 &&
      cursor == Wrap(yielded, |items|) &&
      previous == [items[PyIndex(|items|, cursor - 1)], items[PyIndex(|items|, cursor - 2)]]
    }

    /** Starting needs l[-1] and l[-2]. */
    constructor (l: seq<Point>)
      requires |l| >= 2
      ensures Valid() && items == l && yielded == 0
    {
      items := l;
      cursor := 0;
      previous := [l[|l| - 1], l[|l| - 2]];
      yielded := 0;
    }

    /** next(generator): yields [current] + previous and shifts current into previous. */
    method Next() returns (t: Triple)
      requires Valid()
      modifies this
      ensures Valid() && yielded == old(yielded) + 1
      ensures t == KthTriple(items, old(yielded))
    {
      var current := items[cursor];
      t := Triple(current, previous[0], previous[1]);
      previous := [current] + previous[..1];
      WrapSuccessor(yielded, |items|);
      cursor := if cursor + 1 < |items| then cursor + 1 else 0;
      yielded := yielded + 1;
    }
  }

  /** angles = [_angle(*next(triple)) for p in points]. */
  function AnglesOf(between: RayAngle, l: seq<Point>): (r: seq<real>)
    requires |l| >= 2
    ensures |r| == |l|
  {
    seq(|l|, k requires 0 <= k < |l| => TripleAngle(between, KthTriple(l, k)))
  }

  /** The first m entries of circles = [_circle(*next(triple)) for p in points]; the first
      triple whose circle raises ends the comprehension with that error. */
  function CirclesFrom(between: RayAngle, l: seq<Point>, m: nat): (r: Result<seq<Circumcircle>, MbcError>)
    requires 2 <= |l| && m <= |l|
    ensures r.Success? <==> forall k :: 0 <= k < m ==> CircleOf(between, KthTriple(l, k)).Success?
    ensures r.Success? ==> |r.value| == m
    ensures r.Success? ==> forall k :: 0 <= k < m ==> CircleOf(between, KthTriple(l, k)) == Success(r.value[k])
    ensures r.Failure? ==>
      exists k :: 0 <= k < m && CircleOf(between, KthTriple(l, k)) == Failure(r.error) &&
                  forall j :: 0 <= j < k ==> CircleOf(between, KthTriple(l, j)).Success?
  {
    if m == 0 then Success([])
    else match CirclesFrom(between, l, m - 1)
      case Failure(e) => Failure(e)
      case Success(cs) =>
        match CircleOf(between, KthTriple(l, m - 1))
        case Failure(e) => Failure(e)
        case Success(c) => Success(cs + [c])
  }

  /** The whole comprehension: one circle per point, or the first error. */
  function CirclesOf(between: RayAngle, l: seq<Point>): (r: Result<seq<Circumcircle>, MbcError>)
    requires |l| >= 2
    ensures r.Success? <==> forall k :: 0 <= k < |l| ==> CircleOf(between, KthTriple(l, k)).Success?
    ensures r.Success? ==> |r.value| == |l|
  {
    CirclesFrom(between, l, |l|)
  }

  /** Once a prefix of the comprehension has raised, the whole comprehension raises the same. */
  lemma {:induction false} FailureSticks(between: RayAngle, l: seq<Point>, m: nat, m': nat)
    requires 2 <= |l| && m <= m' <= |l|
    requires CirclesFrom(between, l, m).Failure?
    ensures CirclesFrom(between, l, m') == CirclesFrom(between, l, m)
  {
    if m < m' {
      FailureSticks(between, l, m, m' - 1);
    }
  }

  // The keys np.lexsort((angles, radii)) sorts by: the radius first, then the angle.
  // An Undefined circle has radius -inf, below every defined one; squared radii order
  // defined circles as their radii do.

  predicate RadiusBelow(c: Circumcircle, d: Circumcircle)
  {
    d.Defined? && (c.Undefined? || c.circle.sqRadius < d.circle.sqRadius)
  }

  predicate SameRadius(c: Circumcircle, d: Circumcircle)
  {
    (c.Undefined? && d.Undefined?) || (c.Defined? && d.Defined? && c.circle.sqRadius == d.circle.sqRadius)
  }

  /** Key (c, a) sorts strictly before key (d, b). */
  predicate KeyBelow(c: Circumcircle, a: real, d: Circumcircle, b: real)
  {
    RadiusBelow(c, d) || (SameRadius(c, d) && a < b)
  }

  /** The keys are totally preordered: of any two, one sorts strictly first or they tie. */
  lemma KeysTotal(c: Circumcircle, a: real, d: Circumcircle, b: real)
    ensures KeyBelow(c, a, d, b) || KeyBelow(d, b, c, a) || (SameRadius(c, d) && a == b)
    ensures !(KeyBelow(c, a, d, b) && KeyBelow(d, b, c, a))
  {
  }

  /** lexord[-1] over the first m entries: the last index of a stable sort, which is a
      maximal key and, among equal maximal keys, the one with the largest index. */
  function LastLexMax(circles: seq<Circumcircle>, angles: seq<real>, m: nat): (k: nat)
    requires 1 <= m <= |circles| && |circles| == |angles|
    ensures k < m
    ensures forall j :: 0 <= j < m ==> !KeyBelow(circles[k], angles[k], circles[j], angles[j])
    ensures forall j :: k < j < m ==> KeyBelow(circles[j], angles[j], circles[k], angles[k])
  {
    if m == 1 then 0
    else
      var k := LastLexMax(circles, angles, m - 1);
      if KeyBelow(circles[m - 1], angles[m - 1], circles[k], angles[k]) then k else m - 1
  }

  /** The radius decides before the angle: a larger circle with a smaller angle wins. */
  lemma RadiusBeforeAngle(p: Point)
    ensures LastLexMax([Defined(Circle(p, 1.0)), Defined(Circle(p, 4.0))], [3.0, 2.0], 2) == 1
    ensures LastLexMax([Defined(Circle(p, 4.0)), Defined(Circle(p, 1.0))], [2.0, 3.0], 2) == 0
  {
  }

  /** With equal keys the later index wins, as the stable sort leaves it last. */
  lemma TiesGoLast(c: Circumcircle, a: real)
    ensures LastLexMax([c, c, c], [a, a, a], 3) == 2
  {
  }

  /** The loop of minimum_bounding_circle, as a recursion on the shrinking point list: pick
      lexmax; if its angle exceeds pi/2, pop the middle vertex points[lexmax - 1] and go round
      again, otherwise return circles[lexmax]. A circle it returns is _circle of three of the
      given points whose angle passed the test angle <= pi/2. */
  function Skyum(between: RayAngle, points: seq<Point>): (r: Result<Circumcircle, MbcError>)
    ensures r.Success? ==> exists t :: Drawn(points, t) && TripleAngle(between, t) <= HalfPi &&
                                       CircleOf(between, t) == Success(r.value)
    decreases |points|
  {
    if |points| < 2 then Failure(TooFewPoints)
    else match CirclesOf(between, points)
      case Failure(e) => Failure(e)
      case Success(circles) =>
        var angles := AnglesOf(between, points);
        var k := LastLexMax(circles, angles, |points|);
        if angles[k] > HalfPi then
          var j := PyIndex(|points|, k - 1);
          RemoveAtSubset(points, j);
          Skyum(between, RemoveAt(points, j))
        else
          assert Drawn(points, KthTriple(points, k));
          Success(circles[k])
  }

  /** One round of the loop, spelled out for the list it starts from. */
  lemma SkyumRound(between: RayAngle, points: seq<Point>, circles: seq<Circumcircle>, k: nat)
    requires |points| >= 2
    requires CirclesOf(between, points) == Success(circles)
    requires k == LastLexMax(circles, AnglesOf(between, points), |points|)
    ensures AnglesOf(between, points)[k] > HalfPi ==>
      Skyum(between, points) == Skyum(between, RemoveAt(points, PyIndex(|points|, k - 1)))
    ensures AnglesOf(between, points)[k] <= HalfPi ==> Skyum(between, points) == Success(circles[k])
  {
    var angles := AnglesOf(between, points);
    assert k == LastLexMax(circles, angles, |points|);
  }

  /** The pop removes exactly the middle vertex of the selected triple, and nothing else. */
  lemma PopRemovesMiddle(points: seq<Point>, k: nat)
    requires 2 <= |points| && k < |points|
    ensures |RemoveAt(points, PyIndex(|points|, k - 1))| == |points| - 1
    ensures multiset(RemoveAt(points, PyIndex(|points|, k - 1))) == multiset(points) - multiset{KthTriple(points, k).middle}
  {
    KthTripleInRange(points, k);
  }

  ghost predicate Drawn(points: seq<Point>, t: Triple)
  {
    t.lead in points && t.middle in points && t.trail in points
  }

  /** A circle the loop returns passes through two distinct hull points: the lead and the
      middle vertex of the triple it was drawn from. */
  lemma SkyumThroughTwoPoints(between: RayAngle, points: seq<Point>)
    requires Skyum(between, points).Success? && Skyum(between, points).value.Defined?
    ensures var c := Skyum(between, points).value.circle;
      exists p, q :: p in points && q in points && p != q &&
                     SqDist(c.center, p) == c.sqRadius && SqDist(c.center, q) == c.sqRadius
  {
    var t :| Drawn(points, t) && TripleAngle(between, t) <= HalfPi &&
             CircleOf(between, t) == Success(Skyum(between, points).value);
    assert t.lead in points && t.middle in points && t.lead != t.middle;
  }

  /** Two points: both triples are degenerate with angle 0, both circles are the circle on
      the pair as diameter, the tie goes to the last index and the loop stops at once. */
  lemma TwoPointCircle(between: RayAngle, a: Point, b: Point)
    requires a != b
    requires between(b, a, a) == 0.0 && between(a, b, b) == 0.0
    ensures Skyum(between, [a, b]) == Success(Defined(Circle(Midpoint(a, b), SqDist(a, b) / 4.0)))
  {
    var l := [a, b];
    assert KthTriple(l, 0) == Triple(a, b, a);
    assert KthTriple(l, 1) == Triple(b, a, b);
    MidpointIsCentre(a, b);
    SqDistSymmetric(a, b);
    var c := Defined(Circle(Midpoint(a, b), SqDist(a, b) / 4.0));
    assert CircleOf(between, KthTriple(l, 0)) == Success(c);
    assert CircleOf(between, KthTriple(l, 1)) == Success(c);
    forall k | 0 <= k < 2
      ensures CircleOf(between, KthTriple(l, k)) == Success(c)
    {
      if k == 1 {
        assert KthTriple(l, k) == Triple(b, a, b);
      }
    }
    var cs := CirclesOf(between, l).value;
    assert cs == [c, c] by {
      assert cs[0] == c && cs[1] == c;
    }
    assert AnglesOf(between, l) == [0.0, 0.0];
    assert LastLexMax([c, c], [0.0, 0.0], 2) == 1;
    SkyumRound(between, l, [c, c], 1);
  }

  /** The angles comprehension: len(points) triples drawn from a fresh generator. */
  method DrawAngles(between: RayAngle, triple: TripleCycle) returns (angles: seq<real>)
    requires triple.Valid() && triple.yielded == 0
    modifies triple
    ensures triple.Valid() && triple.yielded == |triple.items|
    ensures angles == AnglesOf(between, triple.items)
  {
    angles := [];
    while |angles| < |triple.items|
      invariant triple.Valid() && triple.yielded == |angles| <= |triple.items|
      invariant angles == AnglesOf(between, triple.items)[..|angles|]
    {
      var t := triple.Next();
      angles := angles + [TripleAngle(between, t)];
    }
  }

  /** The circles comprehension: the next len(points) triples from the same generator,
      which by its period are the triples the angles were taken from. */
  method DrawCircles(between: RayAngle, triple: TripleCycle) returns (r: Result<seq<Circumcircle>, MbcError>)
    requires triple.Valid() && triple.yielded == |triple.items|
    modifies triple
    ensures r == CirclesOf(between, triple.items)
  {
    var circles: seq<Circumcircle> := [];
    while |circles| < |triple.items|
      invariant triple.Valid() && triple.yielded == |triple.items| + |circles|
      invariant |circles| <= |triple.items|
      invariant CirclesFrom(between, triple.items, |circles|) == Success(circles)
    {
      KthTriplePeriodic(triple.items, |circles|);
      var t := triple.Next();
      var c := CircleOf(between, t);
      if c.Failure? {
        FailureSticks(between, triple.items, |circles| + 1, |triple.items|);
        return Failure(c.error);
      }
      circles := circles + [c.value];
    }
    return Success(circles);
  }

  /** minimum_bounding_circle on the convex hull vertices, given counter-clockwise: the list
      is reversed to clockwise and the loop runs until the angle test passes. */
  method MinimumBoundingCircle(between: RayAngle, hull: seq<Point>) returns (r: Result<Circumcircle, MbcError>)
    ensures r == Skyum(between, Reversed(hull))
  {
    var points := Reversed(hull);
    while true
      invariant Skyum(between, points) == Skyum(between, Reversed(hull))
      decreases |points|
    {
      if |points| < 2 {
        return Failure(TooFewPoints);
      }
      var triple := new TripleCycle(points);
      var angles := DrawAngles(between, triple);
      var circles := DrawCircles(between, triple);
      if circles.Failure? {
        return Failure(circles.error);
      }
      var lexmax := LastLexMax(circles.value, angles, |points|);
      SkyumRound(between, points, circles.value, lexmax);
      if angles[lexmax] > HalfPi {
        assert lexmax < |points|;
        points := RemoveAt(points, PyIndex(|points|, lexmax - 1));
      } else {
        return Success(circles.value[lexmax]);
      }
    }
  }
}
