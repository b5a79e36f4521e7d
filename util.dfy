/** The vertex angles of every part of a chain, and the shortest and longest distances
    between a shape's vertices. */
module Util {
  import opened Geometry
  import opened Lists
  import opened Results

  // ---------------------------------------------------------------- all_angles

  datatype AngleError = OneVertexPart  // part[i - 2] with len(part) == 1 is out of range

  /** Entry i of a part's angle list: at part[i-1], from the ray to part[i-2] to the ray
      to part[i], with Python's reading of the indices -1 and -2, so that entries 0 and 1
      use the last two vertices. */
  function VertexAngle(between: RayAngle, part: seq<Point>, i: nat): (a: real)
    requires 2 <= |part| && i < |part|
    ensures i >= 2 ==> a == between(part[i - 1], part[i - 2], part[i])
    ensures i == 1 ==> a == between(part[0], part[|part| - 1], part[1])
    ensures i == 0 ==> a == between(part[|part| - 1], part[|part| - 2], part[0])
  {
    var n := |part|;
    between(part[PyIndex(n, i - 1)], part[PyIndex(n, i - 2)], part[i])
  }

  /** The angles of one part, as the inner loop appends them. */
  ghost predicate PartAnglesAre(between: RayAngle, part: seq<Point>, angles: seq<real>)
  {
    |angles| == |part| && (|part| == 0 || (|part| >= 2 && forall i :: 0 <= i < |part| ==> angles[i] == VertexAngle(between, part, i)))
  }

  /** The inner loop for one part; a one-vertex part raises at its first entry. */
  method PartAngles(between: RayAngle, part: seq<Point>) returns (r: Result<seq<real>, AngleError>)
    ensures r.Failure? <==> |part| == 1
    ensures r.Success? ==> PartAnglesAre(between, part, r.value)
  {
    if |part| == 1 {
      return Failure(OneVertexPart);
    }
    var angles: seq<real> := [];
    for i := 0 to |part|
      invariant |angles| == i
      invariant forall j :: 0 <= j < i ==> angles[j] == VertexAngle(between, part, j)
    {
      angles := angles + [VertexAngle(between, part, i)];
    }
    return Success(angles);
  }

  /** One angle list per part, each the angles of its part. */
  ghost predicate AllAnglesAre(between: RayAngle, parts: seq<seq<Point>>, angles: seq<seq<real>>)
  {
    |angles| == |parts| && forall k :: 0 <= k < |parts| ==> PartAnglesAre(between, parts[k], angles[k])
  }

  /** all_angles: one angle list per part, each as long as its part. */
  method AllAngles(between: RayAngle, parts: seq<seq<Point>>) returns (r: Result<seq<seq<real>>, AngleError>)
    ensures r.Failure? <==> exists k :: 0 <= k < |parts| && |parts[k]| == 1
    ensures r.Success? ==> AllAnglesAre(between, parts, r.value)
  {
    var result: seq<seq<real>> := [];
    for k := 0 to |parts|
      invariant |result| == k
      invariant forall j :: 0 <= j < k ==> |parts[j]| != 1
      invariant forall j :: 0 <= j < k ==> PartAnglesAre(between, parts[j], result[j])
    {
      var angles := PartAngles(between, parts[k]);
      if angles.Failure? {
        return Failure(angles.error);
      }
      result := result + [angles.value];
    }
    return Success(result);
  }

  // ---------------------------------------------------------------- pairwise_lw, unique_lw

  /** The metric pdist is called with: the Euclidean distance, supplied by the caller. */
  type Metric = (Point, Point) -> real

  /** A cell (i, j) of the square distance matrix. */
  type Cell = (nat, nat)

  /** Cells in row-major order: (i, j) before (k, l) when i < k, or i == k and j < l. */
  predicate CellBefore(c: Cell, d: Cell)
  {
    c.0 < d.0 || (c.0 == d.0 && c.1 < d.1)
  }

  ghost predicate RowMajor(cs: seq<Cell>)
  {
    forall a, b :: 0 <= a < b < |cs| ==> CellBefore(cs[a], cs[b])
  }

  ghost predicate CellsOf(ps: seq<Point>, cs: seq<Cell>)
  {
    forall k :: 0 <= k < |cs| ==> cs[k].0 < |ps| && cs[k].1 < |ps|
  }

  /** squareform(pdist(ps, dist))[i][j]: pdist evaluates dist on the pairs i < j only, and
      squareform mirrors them and puts zeros on the diagonal. */
  function Entry(dist: Metric, ps: seq<Point>, c: Cell): (v: real)
    requires c.0 < |ps| && c.1 < |ps|
    ensures c.0 == c.1 ==> v == 0.0
  {
    if c.0 == c.1 then 0.0
    else if c.0 < c.1 then dist(ps[c.0], ps[c.1])
    else dist(ps[c.1], ps[c.0])
  }

  /** Cell c lies above the diagonal of an n-by-n matrix, in row i or later. */
  predicate Upper(n: nat, i: nat, c: Cell)
  {
    i <= c.0 < c.1 < n
  }

  /** Cell c lies in an n-by-n matrix, in row i or later. */
  predicate InGrid(n: nat, i: nat, c: Cell)
  {
    i <= c.0 < n && c.1 < n
  }

  /** The cells (i, j), (i, j + 1), ..., (i, n - 1) of row i. */
  function Row(i: nat, j: nat, n: nat): (r: seq<Cell>)
    requires j <= n
    ensures |r| == n - j
    ensures forall k :: 0 <= k < |r| ==> r[k] == (i, j + k)
    ensures forall c {:trigger c in r} :: c in r <==> c.0 == i && j <= c.1 < n
    decreases n - j
  {
    if j == n then [] else [(i, j)] + Row(i, j + 1, n)
  }

  /** The cells (i, j) with i < j from row i on, in the order of the condensed vector pdist returns. */
  function UpperFrom(n: nat, i: nat): (r: seq<Cell>)
    requires i <= n
    ensures forall c {:trigger c in r} :: c in r <==> Upper(n, i, c)
    ensures forall k :: 0 <= k < |r| ==> Upper(n, i, r[k])
    decreases n - i
  {
    if i == n then []
    else
      Row(i, i + 1, n) + UpperFrom(n, i + 1)
  }

  /** Every cell from row i on, row-major: the order np.where lists matches in. */
  function CellsFrom(n: nat, i: nat): (r: seq<Cell>)
    requires i <= n
    ensures forall c {:trigger c in r} :: c in r <==> InGrid(n, i, c)
    ensures forall k :: 0 <= k < |r| ==> InGrid(n, i, r[k])
    ensures RowMajor(r)
    decreases n - i
  {
    if i == n then []
    else
      var row := Row(i, 0, n);
      var rest := CellsFrom(n, i + 1);
      assert forall a, b :: 0 <= a < |row| <= b < |row + rest| ==> (row + rest)[a] == row[a] && (row + rest)[b] == rest[b - |row|];
      row + rest
  }

  /** np.where(sqf == v): the cells holding v, in row-major order. */
  function Where(dist: Metric, ps: seq<Point>, cs: seq<Cell>, v: real): (r: seq<Cell>)
    requires CellsOf(ps, cs)
    ensures forall c :: c in r <==> c in cs && Entry(dist, ps, c) == v
    ensures CellsOf(ps, r)
    ensures RowMajor(cs) ==> RowMajor(r)
    ensures RowMajor(cs) ==> forall c :: c in r ==> CellBefore(cs[0], c) || c == cs[0]
  {
    if cs == [] then []
    else
      var rest := Where(dist, ps, cs[1..], v);
      assert forall c :: c in cs <==> c == cs[0] || c in cs[1..];
      assert RowMajor(cs) ==> RowMajor(cs[1..]) && forall c :: c in cs[1..] ==> CellBefore(cs[0], c);
      if Entry(dist, ps, cs[0]) == v then [cs[0]] + rest else rest
  }

  /** sqf[cells]: the matrix entries at the given cells. */
  function Values(dist: Metric, ps: seq<Point>, cs: seq<Cell>): (r: seq<real>)
    requires CellsOf(ps, cs)
    ensures |r| == |cs| && forall k :: 0 <= k < |cs| ==> r[k] == Entry(dist, ps, cs[k])
  {
    seq(|cs|, k requires 0 <= k < |cs| => Entry(dist, ps, cs[k]))
  }

  /** pdist(ps): the condensed vector, dist(ps[i], ps[j]) for i < j, row after row. */
  function Pdist(dist: Metric, ps: seq<Point>): (r: seq<real>)
    ensures |ps| < 2 <==> r == []
  {
    var upper := UpperFrom(|ps|, 0);
    assert |ps| >= 2 ==> (0, 1) in upper;
    Values(dist, ps, upper)
  }

  /** Every entry of the condensed vector is the distance of a pair i < j ... */
  lemma PdistEntry(dist: Metric, ps: seq<Point>, k: nat) returns (i: nat, j: nat)
    requires k < |Pdist(dist, ps)|
    ensures i < j < |ps| && Pdist(dist, ps)[k] == dist(ps[i], ps[j])
  {
    var c := UpperFrom(|ps|, 0)[k];
    i, j := c.0, c.1;
  }

  /** ... and the distance of every pair i < j is an entry of it. */
  lemma PdistIndex(dist: Metric, ps: seq<Point>, i: nat, j: nat) returns (k: nat)
    requires i < j < |ps|
    ensures k < |Pdist(dist, ps)| && Pdist(dist, ps)[k] == dist(ps[i], ps[j])
  {
    var upper := UpperFrom(|ps|, 0);
    assert (i, j) in upper;
    k :| 0 <= k < |upper| && upper[k] == (i, j);
  }

  /** xs[np.nonzero(xs)].min(), or None when every entry is zero (numpy raises then). */
  function MinNonzero(xs: seq<real>): (m: Option<real>)
    ensures m.None? <==> forall k :: 0 <= k < |xs| ==> xs[k] == 0.0
    ensures m.Some? ==> m.value != 0.0 && exists k :: 0 <= k < |xs| && xs[k] == m.value
    ensures m.Some? ==> forall k :: 0 <= k < |xs| && xs[k] != 0.0 ==> m.value <= xs[k]
  {
    if xs == [] then None
    else
      var rest := MinNonzero(xs[1..]);
      assert forall k :: 1 <= k < |xs| ==> xs[k] == xs[1..][k - 1];
      if xs[0] == 0.0 then rest
      else if rest.None? || xs[0] <= rest.value then Some(xs[0])
      else rest
  }

  /** xs.max(). */
  function MaxOf(xs: seq<real>): (m: real)
    requires xs != []
    ensures exists k :: 0 <= k < |xs| && xs[k] == m
    ensures forall k :: 0 <= k < |xs| ==> xs[k] <= m
  {
    if |xs| == 1 then xs[0]
    else
      var rest := MaxOf(xs[1..]);
      assert forall k :: 1 <= k < |xs| ==> xs[k] == xs[1..][k - 1];
      if xs[0] >= rest then xs[0] else rest
  }

  /** xs.min(). */
  function MinOf(xs: seq<real>): (m: real)
    requires xs != []
    ensures exists k :: 0 <= k < |xs| && xs[k] == m
    ensures forall k :: 0 <= k < |xs| ==> m <= xs[k]
  {
    if |xs| == 1 then xs[0]
    else
      var rest := MinOf(xs[1..]);
      assert forall k :: 1 <= k < |xs| ==> xs[k] == xs[1..][k - 1];
      if xs[0] <= rest then xs[0] else rest
  }

  datatype LwError = NoNonzeroDistance  // .min() of an empty array: fewer than two distinct points

  /** What pairwise_lw returns: the cells at the minimum and their values, then the same
      for the maximum. */
  datatype Extremes = Extremes(minCells: seq<Cell>, minValues: seq<real>, maxCells: seq<Cell>, maxValues: seq<real>)

  /** pairwise_lw: every cell of the square matrix at the smallest non-zero distance and at
      the largest, with the matrix entries there. */
  function PairwiseLw(dist: Metric, ps: seq<Point>): (r: Result<Extremes, LwError>)
    ensures r.Success? ==> |ps| >= 2
    ensures r.Success? ==> |r.value.minValues| == |r.value.minCells| && |r.value.maxValues| == |r.value.maxCells|
    ensures r.Success? ==> forall k :: 0 <= k < |r.value.minValues| ==> r.value.minValues[k] != 0.0
  {
    var pwds := Pdist(dist, ps);
    var cells := CellsFrom(|ps|, 0);
    match MinNonzero(pwds)
      case None => Failure(NoNonzeroDistance)
      case Some(minval) =>
        var maxval := MaxOf(pwds);
        var amin, amax := Where(dist, ps, cells, minval), Where(dist, ps, cells, maxval);
        Success(Extremes(amin, Values(dist, ps, amin), amax, Values(dist, ps, amax)))
  }

  /** np.where over the whole matrix finds exactly the cells holding v. */
  lemma WhereAll(dist: Metric, ps: seq<Point>, v: real)
    ensures forall i: nat, j: nat :: i < |ps| && j < |ps| ==>
      ((i, j) in Where(dist, ps, CellsFrom(|ps|, 0), v) <==> Entry(dist, ps, (i, j)) == v)
  {
    forall i: nat, j: nat | i < |ps| && j < |ps|
      ensures (i, j) in Where(dist, ps, CellsFrom(|ps|, 0), v) <==> Entry(dist, ps, (i, j)) == v
    {
      assert (i, j) in CellsFrom(|ps|, 0);
    }
  }

  /** The smallest non-zero distance between two of the points. */
  ghost predicate IsMinNonzero(dist: Metric, ps: seq<Point>, m: real)
  {
    m != 0.0 &&
    (exists i, j :: 0 <= i < j < |ps| && dist(ps[i], ps[j]) == m) &&
    forall i, j :: 0 <= i < j < |ps| && dist(ps[i], ps[j]) != 0.0 ==> m <= dist(ps[i], ps[j])
  }

  /** The largest distance between two of the points. */
  ghost predicate IsMax(dist: Metric, ps: seq<Point>, m: real)
  {
    (exists i, j :: 0 <= i < j < |ps| && dist(ps[i], ps[j]) == m) &&
    forall i, j :: 0 <= i < j < |ps| ==> dist(ps[i], ps[j]) <= m
  }

  /** pairwise_lw fails exactly when all points coincide, or there are fewer than two. */
  lemma PairwiseLwFails(dist: Metric, ps: seq<Point>)
    ensures PairwiseLw(dist, ps).Failure? <==> forall i, j :: 0 <= i < j < |ps| ==> dist(ps[i], ps[j]) == 0.0
  {
    var pwds := Pdist(dist, ps);
    match MinNonzero(pwds)
      case None =>
        forall i, j | 0 <= i < j < |ps|
          ensures dist(ps[i], ps[j]) == 0.0
        {
          var k := PdistIndex(dist, ps, i, j);
        }
      case Some(minval) =>
        var k :| 0 <= k < |pwds| && pwds[k] == minval;
        var i, j := PdistEntry(dist, ps, k);
  }

  /** The minimum over the condensed vector is the smallest non-zero distance. */
  lemma MinNonzeroIs(dist: Metric, ps: seq<Point>)
    requires MinNonzero(Pdist(dist, ps)).Some?
    ensures IsMinNonzero(dist, ps, MinNonzero(Pdist(dist, ps)).value)
  {
    var pwds := Pdist(dist, ps);
    var minval := MinNonzero(pwds).value;
    var k :| 0 <= k < |pwds| && pwds[k] == minval;
    var i, j := PdistEntry(dist, ps, k);
    forall i, j | 0 <= i < j < |ps| && dist(ps[i], ps[j]) != 0.0
      ensures minval <= dist(ps[i], ps[j])
    {
      var t := PdistIndex(dist, ps, i, j);
    }
  }

  /** The maximum over the condensed vector is the largest distance. */
  lemma MaxOfIs(dist: Metric, ps: seq<Point>)
    requires |ps| >= 2
    ensures Pdist(dist, ps) != [] && IsMax(dist, ps, MaxOf(Pdist(dist, ps)))
  {
    var pwds := Pdist(dist, ps);
    var maxval := MaxOf(pwds);
    var k :| 0 <= k < |pwds| && pwds[k] == maxval;
    var i, j := PdistEntry(dist, ps, k);
    forall i, j | 0 <= i < j < |ps|
      ensures dist(ps[i], ps[j]) <= maxval
    {
      var t := PdistIndex(dist, ps, i, j);
    }
  }

  /** A value attained somewhere in the matrix is found by np.where, and sqf[where] repeats it. */
  lemma WhereAttained(dist: Metric, ps: seq<Point>, c: Cell, v: real)
    requires c.0 < |ps| && c.1 < |ps| && Entry(dist, ps, c) == v
    ensures Where(dist, ps, CellsFrom(|ps|, 0), v) != []
    ensures var w := Where(dist, ps, CellsFrom(|ps|, 0), v);
      forall k :: 0 <= k < |w| ==> Values(dist, ps, w)[k] == v
  {
    var w := Where(dist, ps, CellsFrom(|ps|, 0), v);
    assert c in CellsFrom(|ps|, 0);
    assert c in w;
    forall k | 0 <= k < |w|
      ensures Values(dist, ps, w)[k] == v
    {
      assert w[k] in w;
    }
  }

  /** For a value the matrix holds, np.where finds a non-empty list of cells, exactly the
      cells holding it, and sqf at those cells repeats the value. */
  lemma CellsAt(dist: Metric, ps: seq<Point>, v: real, c: Cell)
    requires c.0 < |ps| && c.1 < |ps| && Entry(dist, ps, c) == v
    ensures var w := Where(dist, ps, CellsFrom(|ps|, 0), v);
      w != [] && |Values(dist, ps, w)| == |w| && Values(dist, ps, w)[0] == v &&
      (forall k :: 0 <= k < |w| ==> Values(dist, ps, w)[k] == v) &&
      forall i: nat, j: nat :: i < |ps| && j < |ps| ==> ((i, j) in w <==> Entry(dist, ps, (i, j)) == v)
  {
    WhereAttained(dist, ps, c, v);
    WhereAll(dist, ps, v);
  }

  /** What a successful pairwise_lw holds: np.where and sqf[...] at the smallest non-zero
      entry of the condensed vector and at its largest entry. */
  lemma PairwiseLwShape(dist: Metric, ps: seq<Point>)
    requires PairwiseLw(dist, ps).Success?
    ensures MinNonzero(Pdist(dist, ps)).Some? && Pdist(dist, ps) != []
    ensures var e, cells := PairwiseLw(dist, ps).value, CellsFrom(|ps|, 0);
      var minval, maxval := MinNonzero(Pdist(dist, ps)).value, MaxOf(Pdist(dist, ps));
      e.minCells == Where(dist, ps, cells, minval) && e.minValues == Values(dist, ps, e.minCells) &&
      e.maxCells == Where(dist, ps, cells, maxval) && e.maxValues == Values(dist, ps, e.maxCells)
  {
  }

  /** The minimum's cells are exactly the cells at the smallest non-zero distance, there is
      at least one, and every value reported for them is that distance. */
  lemma PairwiseLwMin(dist: Metric, ps: seq<Point>)
    requires PairwiseLw(dist, ps).Success?
    ensures var e := PairwiseLw(dist, ps).value;
      e.minCells != [] && |e.minValues| == |e.minCells| &&
      (forall k :: 0 <= k < |e.minValues| ==> e.minValues[k] == e.minValues[0]) &&
      IsMinNonzero(dist, ps, e.minValues[0]) &&
      forall i: nat, j: nat :: i < |ps| && j < |ps| ==> ((i, j) in e.minCells <==> Entry(dist, ps, (i, j)) == e.minValues[0])
  {
    PairwiseLwShape(dist, ps);
    var pwds := Pdist(dist, ps);
    var minval := MinNonzero(pwds).value;
    var k :| 0 <= k < |pwds| && pwds[k] == minval;
    var i, j := PdistEntry(dist, ps, k);
    CellsAt(dist, ps, minval, (i, j));
    MinNonzeroIs(dist, ps);
  }

  /** The same for the maximum: every cell at the largest distance, all reported values equal. */
  lemma PairwiseLwMax(dist: Metric, ps: seq<Point>)
    requires PairwiseLw(dist, ps).Success?
    ensures var e := PairwiseLw(dist, ps).value;
      e.maxCells != [] && |e.maxValues| == |e.maxCells| &&
      (forall k :: 0 <= k < |e.maxValues| ==> e.maxValues[k] == e.maxValues[0]) &&
      IsMax(dist, ps, e.maxValues[0]) &&
      forall i: nat, j: nat :: i < |ps| && j < |ps| ==> ((i, j) in e.maxCells <==> Entry(dist, ps, (i, j)) == e.maxValues[0])
  {
    PairwiseLwShape(dist, ps);
    var pwds := Pdist(dist, ps);
    var maxval := MaxOf(pwds);
    var k :| 0 <= k < |pwds| && pwds[k] == maxval;
    var i, j := PdistEntry(dist, ps, k);
    CellsAt(dist, ps, maxval, (i, j));
    MaxOfIs(dist, ps);
  }

  /** The matrix is symmetric: squareform mirrors every entry across the diagonal. */
  lemma EntrySymmetric(dist: Metric, ps: seq<Point>, c: Cell)
    requires c.0 < |ps| && c.1 < |ps|
    ensures Entry(dist, ps, (c.1, c.0)) == Entry(dist, ps, c)
  {
  }

  /** The first cell np.where lists comes before every other cell it lists. */
  lemma WhereFirst(dist: Metric, ps: seq<Point>, v: real)
    requires Where(dist, ps, CellsFrom(|ps|, 0), v) != []
    ensures var w := Where(dist, ps, CellsFrom(|ps|, 0), v);
      w[0].0 < |ps| && w[0].1 < |ps| && Entry(dist, ps, w[0]) == v &&
      forall c :: c in w ==> c == w[0] || CellBefore(w[0], c)
  {
    var w := Where(dist, ps, CellsFrom(|ps|, 0), v);
    assert w[0] in w;
  }

  /** For a non-zero value, the first cell holding it lies above the diagonal: its mirror
      image holds the same value and would otherwise come first. */
  lemma WhereFirstUpper(dist: Metric, ps: seq<Point>, v: real)
    requires v != 0.0 && Where(dist, ps, CellsFrom(|ps|, 0), v) != []
    ensures var w := Where(dist, ps, CellsFrom(|ps|, 0), v); w[0].0 < w[0].1
  {
    var w := Where(dist, ps, CellsFrom(|ps|, 0), v);
    WhereFirst(dist, ps, v);
    var c := w[0];
    EntrySymmetric(dist, ps, c);
    WhereAll(dist, ps, v);
    assert (c.1, c.0) in w;
  }

  /** What unique_lw returns: the first cell at the minimum and the minimum, then the same
      for the maximum. */
  datatype Lw = Lw(minPair: Cell, minDist: real, maxPair: Cell, maxDist: real)

  /** unique_lw: the first index pair of each kind, with mindists.min() and maxdists.max().
      Its two asserts that all reported values agree never fail (PairwiseLwMin, PairwiseLwMax). */
  function UniqueLw(dist: Metric, ps: seq<Point>): (r: Result<Lw, LwError>)
    ensures r.Failure? <==> PairwiseLw(dist, ps).Failure?
    ensures r.Success? ==> r.value.minDist != 0.0 && r.value.minDist <= r.value.maxDist
  {
    match PairwiseLw(dist, ps)
      case Failure(e) => Failure(e)
      case Success(e) =>
        PairwiseLwMin(dist, ps);
        PairwiseLwMax(dist, ps);
        Success(Lw(e.minCells[0], MinOf(e.minValues), e.maxCells[0], MaxOf(e.maxValues)))
  }

  /** unique_lw fails exactly when pairwise_lw does: when no two points are apart. */
  lemma UniqueLwFails(dist: Metric, ps: seq<Point>)
    ensures UniqueLw(dist, ps).Failure? <==> forall i, j :: 0 <= i < j < |ps| ==> dist(ps[i], ps[j]) == 0.0
  {
    PairwiseLwFails(dist, ps);
  }

  /** The minimum unique_lw reports is the smallest non-zero distance, its pair i < j holds it,
      and no cell holding it comes earlier in row-major order. */
  lemma UniqueLwMin(dist: Metric, ps: seq<Point>)
    requires UniqueLw(dist, ps).Success?
    ensures var u := UniqueLw(dist, ps).value;
      IsMinNonzero(dist, ps, u.minDist) &&
      u.minPair.0 < u.minPair.1 < |ps| && dist(ps[u.minPair.0], ps[u.minPair.1]) == u.minDist &&
      forall i: nat, j: nat :: i < |ps| && j < |ps| && Entry(dist, ps, (i, j)) == u.minDist ==>
        (i, j) == u.minPair || CellBefore(u.minPair, (i, j))
  {
    PairwiseLwMin(dist, ps);
    var e := PairwiseLw(dist, ps).value;
    var m := e.minValues[0];
    assert MinOf(e.minValues) == m;
    WhereFirst(dist, ps, m);
    WhereFirstUpper(dist, ps, m);
  }

  /** The maximum unique_lw reports is the largest distance, held by its pair, no cell holding
      it comes earlier, and it is at least the minimum. */
  lemma UniqueLwMax(dist: Metric, ps: seq<Point>)
    requires UniqueLw(dist, ps).Success?
    ensures var u := UniqueLw(dist, ps).value;
      IsMax(dist, ps, u.maxDist) && u.minDist <= u.maxDist &&
      u.maxPair.0 < |ps| && u.maxPair.1 < |ps| && Entry(dist, ps, u.maxPair) == u.maxDist &&
      (u.maxDist != 0.0 ==> u.maxPair.0 < u.maxPair.1) &&
      forall i: nat, j: nat :: i < |ps| && j < |ps| && Entry(dist, ps, (i, j)) == u.maxDist ==>
        (i, j) == u.maxPair || CellBefore(u.maxPair, (i, j))
  {
    PairwiseLwMax(dist, ps);
    UniqueLwMin(dist, ps);
    var e := PairwiseLw(dist, ps).value;
    var m := e.maxValues[0];
    assert MaxOf(e.maxValues) == m;
    WhereFirst(dist, ps, m);
    if m != 0.0 {
      WhereFirstUpper(dist, ps, m);
    }
  }

  /** With a metric that is never negative, as the Euclidean one, both pairs lie above the
      diagonal and the minimum is positive. */
  lemma UniqueLwPositive(dist: Metric, ps: seq<Point>)
    requires forall p, q :: dist(p, q) >= 0.0
    requires UniqueLw(dist, ps).Success?
    ensures var u := UniqueLw(dist, ps).value;
      0.0 < u.minDist <= u.maxDist && u.minPair.0 < u.minPair.1 && u.maxPair.0 < u.maxPair.1
  {
    UniqueLwMin(dist, ps);
    UniqueLwMax(dist, ps);
    var u := UniqueLw(dist, ps).value;
    assert dist(ps[u.minPair.0], ps[u.minPair.1]) >= 0.0;
  }
}
