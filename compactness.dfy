/** The compactness measures built from vertex angles, coordinate extents, area and perimeter. */
module Compactness {
  import opened Geometry
  import opened Results
  import opened Util

  // ---------------------------------------------------------------- taylor_reflexive

  datatype TaylorError =
    | AngleFailure(cause: AngleError)  // all_angles raised
    | ZeroDivision                     // N + R == 0: no number results

  /** (np.array(a) >= 0).sum(): how many angles of a part are not reflexive. */
  function NonNegative(a: seq<real>): (c: nat)
    ensures c <= |a|
  {
    if a == [] then 0 else (if a[0] >= 0.0 then 1 else 0) + NonNegative(a[1..])
  }

  /** The count is the whole part exactly when no angle is negative, and zero exactly when
      every angle is. */
  lemma {:induction false} NonNegativeExtremes(a: seq<real>)
    ensures NonNegative(a) == |a| <==> forall k :: 0 <= k < |a| ==> a[k] >= 0.0
    ensures NonNegative(a) == 0 <==> forall k :: 0 <= k < |a| ==> a[k] < 0.0
  {
    if a != [] {
      NonNegativeExtremes(a[1..]);
      assert forall k :: 1 <= k < |a| ==> a[k] == a[1..][k - 1];
    }
  }

  /** N after the loop has run over the given parts: the non-negative angles of all of them,
      never more than there are angles. */
  function CountN(angles: seq<seq<real>>): (n: nat)
    ensures n <= Total(angles)
  {
    if angles == [] then 0 else CountN(angles[..|angles| - 1]) + NonNegative(angles[|angles| - 1])
  }

  /** R after the loop has run over the given parts, as written: each part adds its length
      minus the running total N, not minus its own count. It never exceeds the number of
      negative angles, and equals it while there is at most one part. */
  function CountR(angles: seq<seq<real>>): (r: int)
    ensures r <= Reflexive(angles)
    ensures |angles| <= 1 ==> r == Reflexive(angles)
  {
    if angles == [] then 0 else CountR(angles[..|angles| - 1]) + |angles[|angles| - 1]| - CountN(angles)
  }

  /** (N - R) / (N + R) with true division. When N + R is zero there is no number: Python
      raises on its own integers (no parts at all), numpy's integer division gives inf or nan. */
  function Quotient(n: int, r: int): (q: Result<real, TaylorError>)
    ensures q.Failure? <==> n + r == 0
    ensures q.Failure? ==> q.error == ZeroDivision
  {
    if n + r == 0 then Failure(ZeroDivision) else Success((n as real - r as real) / (n as real + r as real))
  }

  /** A successful quotient times N + R gives back N - R. */
  lemma QuotientTimes(n: int, r: int)
    requires n + r != 0
    ensures Quotient(n, r).value * (n as real + r as real) == n as real - r as real
  {
  }

  /** The index the loop of taylor_reflexive computes from the angle lists. It fails only by
      dividing by zero, and on a single part it is the documented index. */
  function TaylorIndex(angles: seq<seq<real>>): (r: Result<real, TaylorError>)
    ensures r.Failure? ==> r.error == ZeroDivision
    ensures |angles| <= 1 ==> r == TaylorIntended(angles)
  {
    Quotient(CountN(angles), CountR(angles))
  }

  /** The loop over the angle lists, updating N and R part by part. */
  method TaylorCounts(angles: seq<seq<real>>) returns (n: int, r: int)
    ensures n == CountN(angles) && r == CountR(angles)
  {
    n, r := 0, 0;
    for i := 0 to |angles|
      invariant n == CountN(angles[..i]) && r == CountR(angles[..i])
    {
      var ni := NonNegative(angles[i]);
      assert angles[..i + 1][..i] == angles[..i];
      n := n + ni;
      r := r + |angles[i]| - n;
    }
    assert angles[..|angles|] == angles;
  }

  /** taylor_reflexive: all_angles, then the counting loop, then the quotient. */
  method TaylorReflexive(between: RayAngle, parts: seq<seq<Point>>) returns (res: Result<real, TaylorError>)
    ensures res == Failure(AngleFailure(OneVertexPart)) <==> exists k :: 0 <= k < |parts| && |parts[k]| == 1
    ensures res != Failure(AngleFailure(OneVertexPart)) ==>
      exists angles :: AllAnglesAre(between, parts, angles) && res == TaylorIndex(angles)
  {
    var all := AllAngles(between, parts);
    if all.Failure? {
      assert all.error == OneVertexPart;
      return Failure(AngleFailure(all.error));
    }
    var n, r := TaylorCounts(all.value);
    res := Quotient(n, r);
    assert AllAnglesAre(between, parts, all.value) && res == TaylorIndex(all.value);
  }

  /** After one part, N is its count and R the rest of its angles. */
  lemma CountsOfOnePart(a: seq<real>)
    ensures CountN([a]) == NonNegative(a) && CountR([a]) == |a| - NonNegative(a)
  {
    assert [a][..0] == [];
    assert CountN([a]) == NonNegative(a);
  }

  /** With N and R counting L > 0 angles together, the quotient is (2N - L) / L. */
  lemma QuotientOfOnePart(n: int, r: int, l: int)
    requires n + r == l && l > 0
    ensures Quotient(n, r).Success?
    ensures Quotient(n, r).value * l as real == 2.0 * n as real - l as real
  {
    QuotientTimes(n, r);
    ScaleEqual(Quotient(n, r).value, n as real + r as real, l as real);
  }

  /** With a single part of L > 0 angles, N of them non-negative (CountsOfOnePart), the
      index is (2N - L) / L. */
  lemma TaylorSinglePart(a: seq<real>)
    requires |a| > 0
    ensures TaylorIndex([a]).Success?
    ensures TaylorIndex([a]).value * |a| as real == 2.0 * CountN([a]) as real - |a| as real
  {
    CountsOfOnePart(a);
    QuotientOfOnePart(CountN([a]), CountR([a]), |a|);
  }

  /** Five non-negative angles out of eight give 0.25. */
  lemma TaylorFiveOfEight(a: seq<real>)
    requires |a| == 8 && NonNegative(a) == 5
    ensures TaylorIndex([a]) == Success(0.25)
  {
    TaylorSinglePart(a);
  }

  /** Two parts of two non-negative angles each: as written, R goes negative and the index
      is 3, outside [-1, 1]; counting per part gives 1. */
  lemma TaylorTwoPartsCounterexample()
    ensures TaylorIndex([[1.0, 1.0], [1.0, 1.0]]) == Success(3.0)
    ensures TaylorIntended([[1.0, 1.0], [1.0, 1.0]]) == Success(1.0)
  {
    var angles: seq<seq<real>> := [[1.0, 1.0], [1.0, 1.0]];
    assert angles[..1] == [[1.0, 1.0]];
    assert angles[..1][..0] == [];
    assert NonNegative([1.0, 1.0]) == 2 by {
      assert [1.0, 1.0][1..] == [1.0];
      assert [1.0][1..] == [];
    }
    assert CountN(angles) == 4;
    assert CountR(angles) == -2;
    assert Reflexive(angles) == 0 by {
      assert Total(angles) == 4;
    }
  }

  /** The number of all angles of the given parts. */
  function Total(angles: seq<seq<real>>): nat
  {
    if angles == [] then 0 else Total(angles[..|angles| - 1]) + |angles[|angles| - 1]|
  }

  /** The reflexive (negative) angles of all parts, as the index means R. */
  function Reflexive(angles: seq<seq<real>>): int
  {
    Total(angles) - CountN(angles)
  }

  /** The index as documented: (N - R) / (N + R) over all angles, with R += len(A) - ni.
      It fails exactly when there is no angle at all. */
  function TaylorIntended(angles: seq<seq<real>>): (r: Result<real, TaylorError>)
    ensures r.Failure? <==> Total(angles) == 0
  {
    Quotient(CountN(angles), Reflexive(angles))
  }

  /** (N - R) / (N + R) for counts N and R, not both zero, lies in [-1, 1] and is 1 exactly
      when R is zero. */
  lemma QuotientBounds(n: nat, r: nat)
    requires n + r != 0
    ensures -1.0 <= Quotient(n, r).value <= 1.0
    ensures Quotient(n, r).value == 1.0 <==> r == 0
  {
    var t := n as real + r as real;
    var v := Quotient(n, r).value;
    QuotientTimes(n, r);
    assert v * t == n as real - r as real;
    assert (1.0 - v) * t == 2.0 * r as real by {
      assert (1.0 - v) * t == t - v * t;
    }
    assert (v + 1.0) * t == 2.0 * n as real by {
      assert (v + 1.0) * t == v * t + t;
    }
    SignOfFactor(1.0 - v, t);
    SignOfFactor(v + 1.0, t);
    if r == 0 {
      assert (1.0 - v) * t == 0.0;
      CancelNonzero(t, 1.0 - v);
    }
  }

  /** The intended index fails only when there is no angle at all, lies in [-1, 1], and is 1
      exactly when no angle is reflexive. */
  lemma TaylorIntendedBounds(angles: seq<seq<real>>)
    ensures TaylorIntended(angles).Failure? <==> Total(angles) == 0
    ensures TaylorIntended(angles).Success? ==>
      -1.0 <= TaylorIntended(angles).value <= 1.0 &&
      (TaylorIntended(angles).value == 1.0 <==> Reflexive(angles) == 0)
  {
    var n, r := CountN(angles), Reflexive(angles);
    assert n + r == Total(angles);
    if n + r != 0 {
      QuotientBounds(n, r);
    }
  }

  // ---------------------------------------------------------------- eig_seitzinger

  datatype EigError = NoPoints  // np.max of an empty list

  /** np.max(xs) - np.min(xs): how far the values spread. */
  function Extent(xs: seq<real>): (e: real)
    requires xs != []
    ensures e >= 0.0
  {
    assert MinOf(xs) <= xs[0] <= MaxOf(xs);
    MaxOf(xs) - MinOf(xs)
  }

  /** (max x - min x) - (max y - min y): east-west extent less north-south extent. */
  function EigSeitzinger(ps: seq<Point>): (r: Result<real, EigError>)
    ensures r.Failure? <==> ps == []
  {
    if ps == [] then Failure(NoPoints)
    else Success(Extent(Xs(ps)) - Extent(Ys(ps)))
  }

  /** A value attained in xs and bounding it from above is its maximum. */
  lemma MaxOfIsUnique(xs: seq<real>, m: real)
    requires (exists k :: 0 <= k < |xs| && xs[k] == m) && forall k :: 0 <= k < |xs| ==> xs[k] <= m
    ensures MaxOf(xs) == m
  {
    var k :| 0 <= k < |xs| && xs[k] == m;
    var j :| 0 <= j < |xs| && xs[j] == MaxOf(xs);
  }

  /** A value attained in xs and bounding it from below is its minimum. */
  lemma MinOfIsUnique(xs: seq<real>, m: real)
    requires (exists k :: 0 <= k < |xs| && xs[k] == m) && forall k :: 0 <= k < |xs| ==> m <= xs[k]
    ensures MinOf(xs) == m
  {
    var k :| 0 <= k < |xs| && xs[k] == m;
    var j :| 0 <= j < |xs| && xs[j] == MinOf(xs);
  }

  /** Shifting every value shifts the maximum and the minimum alike, so the extent stays. */
  lemma ExtentShift(xs: seq<real>, ys: seq<real>, d: real)
    requires xs != [] && |ys| == |xs| && forall k :: 0 <= k < |xs| ==> ys[k] == xs[k] + d
    ensures MaxOf(ys) == MaxOf(xs) + d && MinOf(ys) == MinOf(xs) + d
    ensures Extent(ys) == Extent(xs)
  {
    var i :| 0 <= i < |xs| && xs[i] == MaxOf(xs);
    var j :| 0 <= j < |xs| && xs[j] == MinOf(xs);
    assert ys[i] == MaxOf(xs) + d && ys[j] == MinOf(xs) + d;
    MaxOfIsUnique(ys, MaxOf(xs) + d);
    MinOfIsUnique(ys, MinOf(xs) + d);
  }

  /** Moving the shape keeps its east-west extent ... */
  lemma WidthTranslated(ps: seq<Point>, dx: real, dy: real)
    requires ps != []
    ensures Extent(Xs(Translated(ps, dx, dy))) == Extent(Xs(ps))
  {
    ExtentShift(Xs(ps), Xs(Translated(ps, dx, dy)), dx);
  }

  /** ... and its north-south extent. */
  lemma HeightTranslated(ps: seq<Point>, dx: real, dy: real)
    requires ps != []
    ensures Extent(Ys(Translated(ps, dx, dy))) == Extent(Ys(ps))
  {
    ExtentShift(Ys(ps), Ys(Translated(ps, dx, dy)), dy);
  }

  /** Two non-empty shapes with the same extents have the same measure. */
  lemma SameExtents(ps: seq<Point>, qs: seq<Point>)
    requires ps != [] && qs != []
    requires Extent(Xs(qs)) == Extent(Xs(ps)) && Extent(Ys(qs)) == Extent(Ys(ps))
    ensures EigSeitzinger(qs) == EigSeitzinger(ps)
  {
    assert EigSeitzinger(ps) == Success(Extent(Xs(ps)) - Extent(Ys(ps)));
    assert EigSeitzinger(qs) == Success(Extent(Xs(qs)) - Extent(Ys(qs)));
  }

  /** Moving the shape does not change the measure. */
  lemma EigTranslation(ps: seq<Point>, dx: real, dy: real)
    ensures EigSeitzinger(Translated(ps, dx, dy)) == EigSeitzinger(ps)
  {
    if ps == [] {
      assert |Translated(ps, dx, dy)| == 0;
    } else {
      WidthTranslated(ps, dx, dy);
      HeightTranslated(ps, dx, dy);
      SameExtents(ps, Translated(ps, dx, dy));
    }
  }

  /** Exchanging the axes negates the measure. */
  lemma EigTransposition(ps: seq<Point>)
    requires ps != []
    ensures EigSeitzinger(Transposed(ps)).value == -EigSeitzinger(ps).value
  {
    var qs := Transposed(ps);
    assert Xs(qs) == Ys(ps) && Ys(qs) == Xs(ps);
  }

  /** Both extents are never negative, so the measure lies between minus the height and the
      width, and a shape whose points all share one y coordinate measures its width. */
  lemma EigBounds(ps: seq<Point>)
    requires ps != []
    ensures -Extent(Ys(ps)) <= EigSeitzinger(ps).value <= Extent(Xs(ps))
    ensures (forall k :: 0 <= k < |ps| ==> ps[k].y == ps[0].y) ==> EigSeitzinger(ps).value == Extent(Xs(ps))
  {
    var ys := Ys(ps);
    if forall k :: 0 <= k < |ps| ==> ps[k].y == ps[0].y {
      MaxOfIsUnique(ys, ps[0].y);
      MinOfIsUnique(ys, ps[0].y);
    }
  }

  // ---------------------------------------------------------------- ipq, iaq and their aliases

  /** math.pi, the binary64 value, written out exactly. */
  const Pi: real := 3.141592653589793115997963468544185161590576171875

  /** ipq: 4 pi area / perimeter^2; Python raises on a zero perimeter. */
  function Ipq(area: real, perimeter: real): (q: Option<real>)
    ensures q.None? <==> perimeter == 0.0
    ensures q.Some? ==> q.value * (perimeter * perimeter) == 4.0 * Pi * area
  {
    if perimeter == 0.0 then None else Some((4.0 * Pi * area) / (perimeter * perimeter))
  }

  /** iaq: 2 pi sqrt(area / pi) / perimeter, with the square root supplied by the caller;
      numpy gives no number on a zero perimeter. */
  function Iaq(root: real -> real, area: real, perimeter: real): (q: Option<real>)
    ensures q.None? <==> perimeter == 0.0
    ensures q.Some? ==> q.value * perimeter == 2.0 * Pi * root(area / Pi)
  {
    if perimeter == 0.0 then None else Some((2.0 * Pi * root(area / Pi)) / perimeter)
  }

  /** polsby_popper is another name for ipq. */
  function PolsbyPopper(area: real, perimeter: real): (q: Option<real>)
    ensures q == Ipq(area, perimeter)
  {
    Ipq(area, perimeter)
  }

  /** schwartzberg is another name for iaq. */
  function Schwartzberg(root: real -> real, area: real, perimeter: real): (q: Option<real>)
    ensures q == Iaq(root, area, perimeter)
  {
    Iaq(root, area, perimeter)
  }
}
