/** The maximum contained circle: Voronoi vertices inside the boundary are the candidate
    centres, and the one farthest from its nearest boundary segment wins. */
module Maxbc {
  import opened Geometry
  import opened Results

  /** LineSegment(p, q) of the boundary. */
  datatype Segment = Segment(start: Point, end: Point)

  /** dist(s, p) stands for get_segment_point_dist(s, p)[0]; inside(p) for the boundary
      polygon's contains_point(p). Both are supplied by the caller. */
  type SegmentDistance = (Segment, Point) -> real
  type Inside = Point -> bool

  datatype MicError =
    | NoInteriorVertex  // no Voronoi vertex lies inside: the result keeps radius -inf, centre (nan, nan)
    | NoSegments        // the boundary has fewer than two vertices: np.min of an empty list

  /** ivoronoi = voronoi.vertices[within]: the vertices inside, in their original order. */
  function Interior(vertices: seq<Point>, inside: Inside): (r: seq<Point>)
    ensures |r| <= |vertices|
    ensures forall p :: p in r <==> p in vertices && inside(p)
  {
    if vertices == [] then []
    else
      var rest := Interior(vertices[1..], inside);
      assert forall p :: p in vertices <==> p == vertices[0] || p in vertices[1..];
      if inside(vertices[0]) then [vertices[0]] + rest else rest
  }

  /** The filter keeps the Voronoi order and every copy: filtering a concatenation
      concatenates the filtered pieces ... */
  lemma {:induction false} InteriorAppend(a: seq<Point>, b: seq<Point>, inside: Inside)
    ensures Interior(a + b, inside) == Interior(a, inside) + Interior(b, inside)
    decreases |a|
  {
    if a != [] {
      assert (a + b)[0] == a[0] && (a + b)[1..] == a[1..] + b;
      InteriorAppend(a[1..], b, inside);
    } else {
      assert a + b == b;
    }
  }

  /** ... and a single vertex is kept exactly when it lies inside. */
  lemma InteriorSingle(v: Point, inside: Inside)
    ensures Interior([v], inside) == if inside(v) then [v] else []
  {
  }

  /** linesegs: consecutive vertices i, i + 1 of the first part, for i < len - 1. */
  function BoundarySegments(ring: seq<Point>): (r: seq<Segment>)
    ensures |r| == if ring == [] then 0 else |ring| - 1
    ensures forall i :: 0 <= i < |r| ==> r[i] == Segment(ring[i], ring[i + 1])
  {
    if |ring| < 2 then [] else seq(|ring| - 1, i requires 0 <= i < |ring| - 1 => Segment(ring[i], ring[i + 1]))
  }

  /** The segments form a chain, and the chain is closed exactly when the ring is stored closed:
      no edge from the last vertex back to the first is added. */
  lemma SegmentsChain(ring: seq<Point>)
    requires |ring| >= 2
    ensures var r := BoundarySegments(ring);
      (forall i :: 0 <= i < |r| - 1 ==> r[i].end == r[i + 1].start) &&
      (r[|r| - 1].end == r[0].start <==> ring[|ring| - 1] == ring[0])
  {
  }

  /** closest = np.min([dist(ls, pt) for ls in linesegs]). */
  function Nearest(segs: seq<Segment>, dist: SegmentDistance, p: Point): (d: real)
    requires segs != []
    ensures forall s :: s in segs ==> d <= dist(s, p)
    ensures exists s :: s in segs && d == dist(s, p)
  {
    if |segs| == 1 then dist(segs[0], p)
    else
      var rest := Nearest(segs[1..], dist, p);
      assert forall s :: s in segs <==> s == segs[0] || s in segs[1..];
      if dist(segs[0], p) <= rest then dist(segs[0], p) else rest
  }

  /** The radius is the score of the k-th candidate, and k is the first candidate with the
      largest score: every earlier one scores strictly less, every later one no more. */
  ghost predicate FirstBest(cands: seq<Point>, segs: seq<Segment>, dist: SegmentDistance, k: int, radius: real)
    requires segs != []
  {
    0 <= k < |cands| && radius == Nearest(segs, dist, cands[k]) &&
    (forall j :: 0 <= j < k ==> Nearest(segs, dist, cands[j]) < radius) &&
    (forall j :: k < j < |cands| ==> Nearest(segs, dist, cands[j]) <= radius)
  }

  /** The for loop over ivoronoi: starting from radius -inf, a candidate replaces the current
      one only when its nearest-segment distance is strictly larger. */
  method Scan(cands: seq<Point>, segs: seq<Segment>, dist: SegmentDistance) returns (best: Option<(real, Point)>)
    requires segs != []
    ensures best.None? <==> cands == []
    ensures best.Some? ==> exists k :: FirstBest(cands, segs, dist, k, best.value.0) && best.value.1 == cands[k]
  {
    best := None;  // radius -inf, centre (nan, nan)
    ghost var k := 0;
    for i := 0 to |cands|
      invariant best.None? <==> i == 0
      invariant best.Some? ==> k < i && best.value.1 == cands[k] && best.value.0 == Nearest(segs, dist, cands[k])
      invariant best.Some? ==> forall j :: 0 <= j < k ==> Nearest(segs, dist, cands[j]) < best.value.0
      invariant best.Some? ==> forall j :: k < j < i ==> Nearest(segs, dist, cands[j]) <= best.value.0
    {
      var closest := Nearest(segs, dist, cands[i]);
      if best.None? || closest > best.value.0 {
        best := Some((closest, cands[i]));
        k := i;
      }
    }
    if best.Some? {
      assert FirstBest(cands, segs, dist, k, best.value.0);
    }
  }

  /** maximum_contained_circle: returns (radius, centre). np.min over the segments raises
      only once there is a candidate to measure. */
  method MaximumContainedCircle(ring: seq<Point>, vertices: seq<Point>, inside: Inside, dist: SegmentDistance)
    returns (r: Result<(real, Point), MicError>)
    ensures r == Failure(NoInteriorVertex) <==> Interior(vertices, inside) == []
    ensures r == Failure(NoSegments) <==> Interior(vertices, inside) != [] && |ring| < 2
    ensures r.Success? ==> |ring| >= 2
    ensures r.Success? ==>
      exists k :: FirstBest(Interior(vertices, inside), BoundarySegments(ring), dist, k, r.value.0) &&
                  r.value.1 == Interior(vertices, inside)[k]
  {
    var cands := Interior(vertices, inside);
    var segs := BoundarySegments(ring);
    if cands != [] && segs == [] {
      return Failure(NoSegments);
    }
    if cands == [] {
      return Failure(NoInteriorVertex);
    }
    var best := Scan(cands, segs, dist);
    return Success(best.value);
  }

  /** The returned centre is an interior Voronoi vertex, and the circle of the returned radius
      around it reaches no boundary segment's nearest point before the radius. */
  lemma ResultInside(ring: seq<Point>, vertices: seq<Point>, inside: Inside, dist: SegmentDistance, k: int, radius: real)
    requires |ring| >= 2
    requires FirstBest(Interior(vertices, inside), BoundarySegments(ring), dist, k, radius)
    ensures Interior(vertices, inside)[k] in vertices && inside(Interior(vertices, inside)[k])
    ensures forall s :: s in BoundarySegments(ring) ==> radius <= dist(s, Interior(vertices, inside)[k])
  {
    var c := Interior(vertices, inside)[k];
    assert c in Interior(vertices, inside);
  }
}
