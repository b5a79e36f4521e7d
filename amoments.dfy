/** Second moment of area of a polygon with holes, as shapestats/_amoments.py computes it. */
module Amoments {
  import opened Geometry
  import opened Lists

  /** A polygon as the polygon library reports it: its part rings and its hole rings.
      A polygon without holes reports holes == [[]]. */
  datatype Chain = Chain(parts: seq<seq<Point>>, holes: seq<seq<Point>>)

  /** The polygon that Polygon(ring) builds: one part, no holes. */
  function HoleFree(ring: seq<Point>): Chain
  {
    Chain([ring], [[]])
  }

  /** The summand for one pair of consecutive vertices (this, next). A pair in line with
      the origin spans no area and contributes nothing. */
  function PairTerm(p: Point, q: Point): (r: real)
    ensures p.x * q.y == q.x * p.y ==> r == 0.0
  {
    (p.x * q.y + 2.0 * p.x * p.y + 2.0 * q.x * q.y + q.x * p.y) * (p.x * q.y - q.x * p.y)
  }

  /** The first factor is symmetric and the second antisymmetric in the pair. */
  lemma PairTermAntisymmetric(p: Point, q: Point)
    ensures PairTerm(q, p) == -PairTerm(p, q)
  {
  }

  /** A pair of equal points contributes nothing. */
  lemma PairTermSame(p: Point)
    ensures PairTerm(p, p) == 0.0
  {
  }

  /** A summand over a pair of consecutive vertices. */
  type Term = (Point, Point) -> real

  ghost predicate Antisymmetric(f: Term)
  {
    forall p: Point, q: Point :: f(q, p) == -f(p, q)
  }

  /** Sum of f(s[i], s[i + 1]) over i < |s| - 1, accumulated front to back;
      there is no term for the pair (last, first). */
  function ChainSum(f: Term, s: seq<Point>): real
    decreases |s|
  {
    if |s| < 2 then 0.0 else ChainSum(f, s[..|s| - 1]) + f(s[|s| - 2], s[|s| - 1])
  }

  /** The moment sum of one chain of vertices, as the inner loop accumulates it. */
  function PairSum(s: seq<Point>): real
  {
    ChainSum(PairTerm, s)
  }

  /** What one part adds to outer_I: the part is reversed first. A part with fewer than
      two vertices has no pair and adds nothing. */
  function PartMoment(part: seq<Point>): (r: real)
    ensures |part| < 2 ==> r == 0.0
  {
    PairSum(Reversed(part))
  }

  /** outer_I: the part moments summed in order; it stays 0 when no part has a pair. */
  function Outer(parts: seq<seq<Point>>): (r: real)
    ensures (forall k :: 0 <= k < |parts| ==> |parts[k]| < 2) ==> r == 0.0
    decreases |parts|
  {
    if parts == [] then 0.0 else Outer(parts[..|parts| - 1]) + PartMoment(parts[|parts| - 1])
  }

  /** The value of second_moa(c). Holes only ever lower it below |outer_I| / 24, and
      without holes it is never negative. */
  function SecondMomentOfArea(c: Chain): (r: real)
    ensures r <= Abs(Outer(c.parts)) / 24.0
    ensures c.holes == [[]] ==> r >= 0.0
    decreases if c.holes == [[]] then 0 else 1, 1, 0
  {
    (1.0 / 24.0) * (Abs(Outer(c.parts)) - Abs(if c.holes == [[]] then 0.0 else HoleSum(c.holes)))
  }

  /** hole_I: the sum of second_moa(Polygon(hole)) over the holes, each of them hole-free
      and so never negative. */
  function HoleSum(holes: seq<seq<Point>>): (r: real)
    ensures r >= 0.0
    decreases 1, 0, |holes|
  {
    if holes == [] then 0.0
    else HoleSum(holes[..|holes| - 1]) + SecondMomentOfArea(HoleFree(holes[|holes| - 1]))
  }

  /** The inner loop of second_moa over one (already reversed) part: the pair terms of
      consecutive vertices, front to back. */
  method PartSum(part: seq<Point>) returns (moment: real)
    ensures moment == PairSum(part)
  {
    moment := 0.0;
    var i := 0;
    while i + 1 < |part|
      invariant |part| < 2 ==> i == 0
      invariant |part| >= 2 ==> i + 1 <= |part|
      invariant moment == PairSum(part[..if part == [] then 0 else i + 1])
    {
      var here, next := part[i], part[i + 1];
      moment := moment + PairTerm(here, next);
      i := i + 1;
      assert part[..i + 1][..i] == part[..i];
    }
    assert |part| >= 2 ==> part[..i + 1] == part;
  }

  /** second_moa: hole contributions through one recursive call per hole, then the
      pairwise accumulation over each reversed part. */
  method SecondMoa(chain: Chain) returns (r: real)
    ensures r == SecondMomentOfArea(chain)
    decreases if chain.holes == [[]] then 0 else 1
  {
    var outerI := 0.0;
    var holeI := 0.0;
    if chain.holes != [[]] {
      var k := 0;
      while k < |chain.holes|
        invariant k <= |chain.holes|
        invariant holeI == HoleSum(chain.holes[..k])
      {
        var m := SecondMoa(HoleFree(chain.holes[k]));
        holeI := holeI + m;
        k := k + 1;
        assert chain.holes[..k][..k - 1] == chain.holes[..k - 1];
      }
      assert chain.holes[..k] == chain.holes;
    }
    var j := 0;
    while j < |chain.parts|
      invariant j <= |chain.parts|
      invariant outerI == Outer(chain.parts[..j])
    {
      var moment := PartSum(Reversed(chain.parts[j]));
      outerI := outerI + moment;
      j := j + 1;
      assert chain.parts[..j][..j - 1] == chain.parts[..j - 1];
    }
    assert chain.parts[..j] == chain.parts;
    r := (1.0 / 24.0) * (Abs(outerI) - Abs(holeI));
  }

  /** A chain sum read from the front: the first pair, then the rest. */
  lemma {:induction false} ChainSumCons(f: Term, p: Point, s: seq<Point>)
    requires |s| >= 1
    ensures ChainSum(f, [p] + s) == f(p, s[0]) + ChainSum(f, s)
    decreases |s|
  {
    var t := [p] + s;
    if |s| == 1 {
      assert t[..|t| - 1] == [p];
    } else {
      assert t[..|t| - 1] == [p] + s[..|s| - 1];
      ChainSumCons(f, p, s[..|s| - 1]);
    }
  }

  /** For an antisymmetric summand, reversing a chain negates its sum. */
  lemma {:induction false} ChainSumReversed(f: Term, s: seq<Point>)
    requires Antisymmetric(f)
    ensures ChainSum(f, Reversed(s)) == -ChainSum(f, s)
    decreases |s|
  {
    if |s| >= 2 {
      var n := |s|;
      var front := s[..n - 1];
      assert Reversed(s) == [s[n - 1]] + Reversed(front);
      ChainSumCons(f, s[n - 1], Reversed(front));
      ChainSumReversed(f, front);
      assert f(s[n - 1], s[n - 2]) == -f(s[n - 2], s[n - 1]);
    } else {
      assert Reversed(s) == s;
    }
  }

  /** Reversing a chain negates its moment sum. */
  lemma PairSumReversed(s: seq<Point>)
    ensures PairSum(Reversed(s)) == -PairSum(s)
  {
    forall p: Point, q: Point
      ensures PairTerm(q, p) == -PairTerm(p, q)
    {
      PairTermAntisymmetric(p, q);
    }
    ChainSumReversed(PairTerm, s);
  }

  /** Every part reversed, i.e. the polygon traversed in the other direction. */
  function ReverseParts(parts: seq<seq<Point>>): (r: seq<seq<Point>>)
    ensures |r| == |parts| && forall i :: 0 <= i < |parts| ==> r[i] == Reversed(parts[i])
  {
    seq(|parts|, i requires 0 <= i < |parts| => Reversed(parts[i]))
  }

  lemma {:induction false} OuterReversed(parts: seq<seq<Point>>)
    ensures Outer(ReverseParts(parts)) == -Outer(parts)
    decreases |parts|
  {
    if parts != [] {
      var n := |parts|;
      assert ReverseParts(parts)[..n - 1] == ReverseParts(parts[..n - 1]);
      OuterReversed(parts[..n - 1]);
      PairSumReversed(Reversed(parts[n - 1]));
      ReversedInvolutive(parts[n - 1]);
    }
  }

  /** Without holes the measure is |outer_I| / 24, hence never negative. */
  lemma NoHoles(c: Chain)
    requires c.holes == [[]]
    ensures SecondMomentOfArea(c) == Abs(Outer(c.parts)) / 24.0
    ensures SecondMomentOfArea(c) >= 0.0
  {
  }

  /** Without holes the measure does not depend on the orientation of the rings. */
  lemma OrientationIndependent(c: Chain)
    requires c.holes == [[]]
    ensures SecondMomentOfArea(Chain(ReverseParts(c.parts), c.holes)) == SecondMomentOfArea(c)
  {
    OuterReversed(c.parts);
  }

  /** In particular a single ring and its reversal have the same measure. */
  lemma RingOrientationIndependent(ring: seq<Point>)
    ensures SecondMomentOfArea(HoleFree(Reversed(ring))) == SecondMomentOfArea(HoleFree(ring))
  {
    assert ReverseParts([ring]) == [Reversed(ring)];
    OrientationIndependent(HoleFree(ring));
  }

  /** A part with fewer than two vertices adds nothing to outer_I. */
  lemma ShortPartAddsNothing(parts: seq<seq<Point>>, part: seq<Point>)
    requires |part| < 2
    ensures Outer(parts + [part]) == Outer(parts)
  {
    assert (parts + [part])[..|parts|] == parts;
  }

  /** The vertex after ring[i], wrapping around: x_{n+1} = x_1 in the textbook formula. */
  function Successor(ring: seq<Point>, i: nat): Point
    requires i < |ring|
  {
    if i + 1 < |ring| then ring[i + 1] else ring[0]
  }

  /** The cyclic sum of the textbook formula: f(ring[i], Successor(ring, i)) over i < k. */
  function CyclicSum(f: Term, ring: seq<Point>, k: nat): real
    requires k <= |ring|
  {
    if k == 0 then 0.0 else CyclicSum(f, ring, k - 1) + f(ring[k - 1], Successor(ring, k - 1))
  }

  /** On a ring stored closed (its first vertex repeated at the end, as shapely stores
      rings), the open pairwise sum is the cyclic sum over the ring's distinct vertices: no
      wraparound term is lost. */
  lemma ClosedRingSum(closed: seq<Point>)
    requires |closed| >= 2 && closed[|closed| - 1] == closed[0]
    ensures PairSum(closed) == CyclicSum(PairTerm, closed[..|closed| - 1], |closed| - 1)
  {
    ClosedRingPrefix(PairTerm, closed, |closed| - 1);
    TakeAll(closed);
  }

  lemma TakeAll(s: seq<Point>)
    ensures s[..|s|] == s
  {
  }

  lemma {:induction false} ClosedRingPrefix(f: Term, closed: seq<Point>, k: nat)
    requires |closed| >= 2 && closed[|closed| - 1] == closed[0] && k < |closed|
    ensures ChainSum(f, closed[..k + 1]) == CyclicSum(f, closed[..|closed| - 1], k)
    decreases k
  {
    var ring := closed[..|closed| - 1];
    var u := closed[..k + 1];
    if k == 0 {
      assert |u| == 1;
    } else {
      ClosedRingPrefix(f, closed, k - 1);
      assert u[..k] == closed[..k];
      assert u[k - 1] == ring[k - 1];
      assert u[k] == Successor(ring, k - 1);
      assert ChainSum(f, u) == ChainSum(f, u[..k]) + f(u[k - 1], u[k]);
    }
  }

  /** The raw (unscaled) hole moments |PartMoment(hole)| summed over the holes. */
  function RawHoles(holes: seq<seq<Point>>): (r: real)
    ensures r >= 0.0
    decreases |holes|
  {
    if holes == [] then 0.0 else RawHoles(holes[..|holes| - 1]) + Abs(PartMoment(holes[|holes| - 1]))
  }

  /** A hole-free polygon of one ring: |PartMoment(ring)| / 24. */
  lemma HoleFreeMoment(ring: seq<Point>)
    ensures SecondMomentOfArea(HoleFree(ring)) == Abs(PartMoment(ring)) / 24.0
  {
    assert [ring][..0] == [];
    assert Outer([ring]) == PartMoment(ring);
    var a := Abs(PartMoment(ring));
    assert SecondMomentOfArea(HoleFree(ring)) == (1.0 / 24.0) * (a - Abs(0.0));
  }

  /** hole_I is the sum of the holes' already scaled measures. */
  lemma {:induction false} HoleSumScaled(holes: seq<seq<Point>>)
    ensures HoleSum(holes) == RawHoles(holes) / 24.0
    decreases |holes|
  {
    if holes != [] {
      HoleSumScaled(holes[..|holes| - 1]);
      HoleFreeMoment(holes[|holes| - 1]);
    }
  }

  /** As written, the hole moments are divided by 24 twice: once inside the recursive
      call and once more in the final combination. */
  lemma HolesScaledTwice(c: Chain)
    requires c.holes != [[]]
    ensures SecondMomentOfArea(c) == (Abs(Outer(c.parts)) - RawHoles(c.holes) / 24.0) / 24.0
  {
    HoleSumScaled(c.holes);
  }

  /** The unit square, stored closed. */
  const UnitSquare: seq<Point> := [Point(0.0, 0.0), Point(0.0, 1.0), Point(1.0, 1.0), Point(1.0, 0.0), Point(0.0, 0.0)]

  /** The unit square traversed the other way round. */
  const SquareReversed: seq<Point> := [Point(0.0, 0.0), Point(1.0, 0.0), Point(1.0, 1.0), Point(0.0, 1.0), Point(0.0, 0.0)]

  lemma UnitSquareReversed()
    ensures Reversed(UnitSquare) == SquareReversed
  {
    var r := Reversed(UnitSquare);
    assert |r| == 5;
    assert r[0] == SquareReversed[0] && r[1] == SquareReversed[1] && r[2] == SquareReversed[2];
    assert r[3] == SquareReversed[3] && r[4] == SquareReversed[4];
  }

  /** A five-point chain sums its four consecutive pairs. */
  lemma ChainSumFive(f: Term, a: Point, b: Point, c: Point, d: Point, e: Point)
    ensures ChainSum(f, [a, b, c, d, e]) == f(a, b) + f(b, c) + f(c, d) + f(d, e)
  {
    var s := [a, b, c, d, e];
    assert s[..4] == [a, b, c, d];
    assert s[..4][..3] == [a, b, c];
    assert s[..4][..3][..2] == [a, b];
    assert s[..4][..3][..2][..1] == [a];
    assert ChainSum(f, [a, b]) == f(a, b);
    assert ChainSum(f, [a, b, c]) == f(a, b) + f(b, c);
    assert ChainSum(f, [a, b, c, d]) == f(a, b) + f(b, c) + f(c, d);
  }

  /** The pair terms of the reversed unit square, one edge at a time. */
  lemma BottomEdgeTerm()
    ensures PairTerm(Point(0.0, 0.0), Point(1.0, 0.0)) == 0.0
  {
  }

  lemma RightEdgeTerm()
    ensures PairTerm(Point(1.0, 0.0), Point(1.0, 1.0)) == 3.0
  {
  }

  lemma TopEdgeTerm()
    ensures PairTerm(Point(1.0, 1.0), Point(0.0, 1.0)) == 3.0
  {
  }

  lemma LeftEdgeTerm()
    ensures PairTerm(Point(0.0, 1.0), Point(0.0, 0.0)) == 0.0
  {
  }

  lemma SquareReversedSum()
    ensures PartMoment(UnitSquare) == ChainSum(PairTerm, SquareReversed)
  {
    UnitSquareReversed();
  }

  /** Any pair term taking the values 0, 3, 3, 0 on the edges of the reversed square sums to 6. */
  lemma SquareSum(f: Term)
    requires f(Point(0.0, 0.0), Point(1.0, 0.0)) == 0.0
    requires f(Point(1.0, 0.0), Point(1.0, 1.0)) == 3.0
    requires f(Point(1.0, 1.0), Point(0.0, 1.0)) == 3.0
    requires f(Point(0.0, 1.0), Point(0.0, 0.0)) == 0.0
    ensures ChainSum(f, SquareReversed) == 6.0
  {
    ChainSumFive(f, Point(0.0, 0.0), Point(1.0, 0.0), Point(1.0, 1.0), Point(0.0, 1.0), Point(0.0, 0.0));
  }

  /** The reversed unit square has raw moment 6, that is I_xy = 1/4. */
  lemma UnitSquareMoment()
    ensures PartMoment(UnitSquare) == 6.0
  {
    SquareReversedSum();
    BottomEdgeTerm();
    RightEdgeTerm();
    TopEdgeTerm();
    LeftEdgeTerm();
    SquareSum(PairTerm);
  }

  /** A square whose only hole is the square itself covers no area, yet as written its
      measure is 23/96 and not 0 = 1/4 - 1/4. */
  lemma SquareHoleCounterexample()
    ensures SecondMomentOfArea(HoleFree(UnitSquare)) == 0.25
    ensures SecondMomentOfArea(Chain([UnitSquare], [UnitSquare])) == 23.0 / 96.0
  {
    UnitSquareMoment();
    HoleFreeMoment(UnitSquare);
    HolesScaledTwice(Chain([UnitSquare], [UnitSquare]));
    assert [UnitSquare][..0] == [];
    assert Outer([UnitSquare]) == 6.0;
    assert RawHoles([UnitSquare]) == 6.0;
  }

  /** Each hole's raw moment subtracted once: (|outer_I| - sum of |hole moment|) / 24, which
      never exceeds the measure of the parts without their holes. */
  function SecondMomentCorrected(c: Chain): (r: real)
    ensures r <= Abs(Outer(c.parts)) / 24.0
  {
    (Abs(Outer(c.parts)) - (if c.holes == [[]] then 0.0 else RawHoles(c.holes))) / 24.0
  }

  /** The corrected measure is the hole-free measure of the parts minus the measure of
      each hole, so a hole that coincides with the outer ring leaves nothing. */
  lemma CorrectedSubtractsHoles(c: Chain)
    ensures c.holes != [[]] ==>
      SecondMomentCorrected(c) == SecondMomentOfArea(Chain(c.parts, [[]])) - HoleSum(c.holes)
    ensures SecondMomentCorrected(Chain([UnitSquare], [UnitSquare])) == 0.0
  {
    HoleSumScaled(c.holes);
    UnitSquareMoment();
    assert [UnitSquare][..0] == [];
    assert Outer([UnitSquare]) == 6.0;
    assert RawHoles([UnitSquare]) == 6.0;
  }
}
