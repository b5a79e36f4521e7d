# shapestats core, modelled in Dafny

shapestats computes compactness measures of polygons (districts, parcels) from their
vertices. This project models the combinatorial and exact-arithmetic core of those measures
and proves properties of it:

- **Minimum bounding circle** (`shapestats/minbc.py`), Skyum's algorithm:
  - the hull vertices are reversed to clockwise order;
  - the generator `_nples` yields cyclic triples (current, previous, the one before);
  - `_circle` gives the circumcircle of a triple, with its duplicate-neighbour,
    collinear and zero-denominator branches;
  - the loop picks the lexicographic maximum by (radius, angle, index) and pops the middle
    vertex until the angle there is at most pi/2.
- **Maximum contained circle** (`shapestats/maxbc.py`):
  - the candidate centres are the Voronoi vertices inside the boundary;
  - the boundary segments join consecutive vertices of the first part;
  - the result is the first candidate whose nearest segment is farthest away.
- **Second moment of area** (`shapestats/_amoments.py`): a fold of a polynomial term over
  consecutive vertex pairs of each reversed part, with one recursive call per hole.
- **Vertex angles and extreme distances** (`shapestats/_util.py`):
  - `all_angles` gives one list per part;
  - `pairwise_lw` finds every cell of the distance matrix at the smallest non-zero
    distance and at the largest;
  - `unique_lw` takes the first pair of each.
- **Measures in `shapestats/compactness.py`**:
  - the counting loop of `taylor_reflexive`;
  - the extents of `eig_seitzinger`;
  - the aliases `polsby_popper` (of `ipq`) and `schwartzberg` (of `iaq`).

Coordinates are exact `real`s. The routines the code calls from elsewhere are parameters of
the model:

- the signed angle between two rays (`between`);
- the segment-point distance;
- point-in-polygon;
- the distance metric;
- the square root.

In the bounding-circle model, radii are compared squared, since sqrt is increasing and is zero
only at zero. The distances of `pairwise_lw` and of the contained circle come from the
caller-supplied metric and segment distance, and are used as given.
The loops that change state are methods proved against specification functions:

- `TripleCycle.Next` and the generator state;
- the `angles`/`circles` comprehensions drawn from one generator;
- the shrinking `points` list of the bounding-circle loop;
- the argmax scan of the contained circle;
- the accumulation loops of `second_moa`, the inner one over a part as its own method;
- the `N`/`R` loop of `taylor_reflexive`;
- the loops of `all_angles`.

Where the documentation and the code disagree, the model follows the code:

- `np.lexsort((angles, radii))` sorts by radius first and angle second, and takes the last
  index among equal keys. The docstring says "angle THEN radius".
- The per-pair term of `second_moa` is the one in the loop body, not the formula in the
  docstring.

## Model

| member | source | states |
|---|---|---|
| Lists.PyIndex | shapestats/minbc.py:44-47 | a Python index -n <= i < n reads element i, or n + i when negative |
| Lists.Reversed | shapestats/minbc.py:30 | `points[::-1]` / `reversed(part)`: same length, element i is element len-1-i of the input |
| Lists.ReversedInvolutive | shapestats/_amoments.py:33 | reversing twice gives the list back |
| Lists.RemoveAt | shapestats/minbc.py:47 | `pop(i)` leaves one fewer element, keeps the ones before i in place, shifts the ones after by one, and removes exactly one copy of element i |
| Lists.RemoveAtSubset | shapestats/minbc.py:47 | whatever remains after a pop was in the list before |
| Geometry.MidpointIsCentre | shapestats/minbc.py:168-170 | the midpoint of A and B is symmetric in A and B, equally far from both, and its squared distance to A is a quarter of the squared distance AB |
| Minbc.Angle | shapestats/minbc.py:133-138 | `_angle(p, q, r)` is never negative and is zero exactly when the signed angle at q is zero |
| Minbc.TripleAngle | shapestats/minbc.py:37 | the angle a triple contributes is never negative, and is zero exactly when the signed angle at its middle vertex is zero |
| Minbc.Max3 | shapestats/minbc.py:180 | `np.max` of three numbers bounds all three and is one of them |
| Minbc.CircleOf | shapestats/minbc.py:154-183 | `_circle(A, B, C)` succeeds only when A != B and B != C, fails only with the duplicate-neighbour or division-by-zero error, and any circle it defines passes through A and B |
| Minbc.DuplicateIff | shapestats/minbc.py:164-165 | `_circle` fails with the duplicate-neighbour error exactly when A = B or B = C |
| Minbc.CollinearCircle | shapestats/minbc.py:166-170 | with angle 0 the circle is centred at the midpoint of A and B, passes through A and B, and its squared radius is a quarter of AB squared |
| Minbc.ZeroDenominator | shapestats/minbc.py:172-182 | with D = 0 the result is the -inf sentinel exactly when the x numerator is 0, and a division-by-zero failure exactly when it is not |
| Minbc.OnBisector | shapestats/minbc.py:173-179 | a point (Nx/D, Ny/D) whose numerators satisfy the bisector equation of p and q, scaled by D, is equally far from p and q |
| Minbc.CenterEquidistantAB | shapestats/minbc.py:173-179 | the closed-form point (Nx / D, Ny / D) is equally far from A and B |
| Minbc.CenterEquidistantBC | shapestats/minbc.py:173-179 | the closed-form point (Nx / D, Ny / D) is equally far from B and C |
| Minbc.Circumcenter | shapestats/minbc.py:173-179 | the closed-form centre (Nx / D, Ny / D) is equally far from A, B and C |
| Minbc.CircumcenterEquidistant | shapestats/minbc.py:172-180 | when D is not 0, `_circle` returns a circle that passes through A, B and C, whose squared radius is the common squared distance |
| Minbc.Wrap | shapestats/minbc.py:147 | the position of `cycle(l)` after k steps lies in the list |
| Minbc.WrapSuccessor | shapestats/minbc.py:147-150 | one more step of `cycle(l)` advances the position by one, wrapping to 0 at the end |
| Minbc.KthTriple | shapestats/minbc.py:140-152 | every triple `_nples(l)` yields is made of points of l |
| Minbc.KthTriplePeriodic | shapestats/minbc.py:36-38 | triple k + len(l) equals triple k, so the angle pass and the circle pass see the same triple at each index |
| Minbc.KthTripleInRange | shapestats/minbc.py:140-152 | triple k (k < len) is (l[k], l[k-1], l[k-2]) with Python's wraparound for k = 0 and k = 1 |
| Minbc.TripleCycle.constructor | shapestats/minbc.py:147-148 | a fresh generator over l (len >= 2) with `previous = [l[-1], l[-2]]` has yielded nothing |
| Minbc.TripleCycle.Next | shapestats/minbc.py:149-152 | each `next` yields the k-th triple and advances the count by one |
| Minbc.AnglesOf | shapestats/minbc.py:37 | the angles list has one entry per point (entry k is the angle of triple k, as `DrawAngles` consumes them) |
| Minbc.CirclesFrom | shapestats/minbc.py:38 | the circles comprehension succeeds exactly when every `_circle` call does, holds `_circle` of triple k at index k, and otherwise fails with the error of the first failing triple |
| Minbc.CirclesOf | shapestats/minbc.py:38 | the whole comprehension succeeds exactly when `_circle` succeeds on each of the len(l) triples, and then holds one circle per point |
| Minbc.FailureSticks | shapestats/minbc.py:38 | once a prefix of the comprehension has failed, the whole comprehension fails with the same error |
| Minbc.KeysTotal | shapestats/minbc.py:40 | any two (radius, angle) keys either tie or one sorts strictly before the other, never both |
| Minbc.LastLexMax | shapestats/minbc.py:40-41 | `lexord[-1]`: no key sorts after the selected one, and every later index sorts strictly before it |
| Minbc.RadiusBeforeAngle | shapestats/minbc.py:40-41 | the radius decides first: a larger circle with a smaller angle is selected |
| Minbc.TiesGoLast | shapestats/minbc.py:40-41 | among equal keys the last index is selected |
| Minbc.PopRemovesMiddle | shapestats/minbc.py:44-47 | `points.pop(lexmax - 1)` shortens the list by one and removes exactly the middle vertex of the selected triple |
| Minbc.Skyum | shapestats/minbc.py:35-53 | the loop, as a recursion on the shrinking list: a circle it returns is `_circle` of a triple of the given points whose angle passed the test angle <= pi/2 |
| Minbc.SkyumRound | shapestats/minbc.py:40-53 | one round: when the selected angle exceeds pi/2 the result is that of the list with `points[lexmax - 1]` popped, otherwise it is `circles[lexmax]` |
| Minbc.SkyumThroughTwoPoints | shapestats/minbc.py:35-53 | a defined circle the loop returns passes through two distinct hull points |
| Minbc.TwoPointCircle | shapestats/minbc.py:35-53 | two distinct points give the circle on them as diameter in the first round |
| Minbc.DrawAngles | shapestats/minbc.py:36-37 | the angles comprehension consumes len(points) triples of a fresh generator and returns exactly their angles |
| Minbc.DrawCircles | shapestats/minbc.py:38 | the circles comprehension consumes the next len(points) triples and returns what `_circle` gives on triples 0..len-1, or the first error |
| Minbc.MinimumBoundingCircle | shapestats/minbc.py:28-54 | the loop over the reversed hull returns exactly the recursive specification: select, pop the middle vertex while the angle exceeds pi/2, return `circles[lexmax]` otherwise; it terminates because the list shrinks |
| Maxbc.Interior | shapestats/maxbc.py:27-28 | the candidates are exactly the Voronoi vertices inside the boundary |
| Maxbc.InteriorAppend | shapestats/maxbc.py:27-28 | the filter keeps order and every copy: filtering a concatenation gives the concatenation of the filtered pieces |
| Maxbc.InteriorSingle | shapestats/maxbc.py:27-28 | a single vertex is kept exactly when it lies inside |
| Maxbc.BoundarySegments | shapestats/maxbc.py:34-35 | len-1 segments, segment i joining vertices i and i+1 of the first part |
| Maxbc.SegmentsChain | shapestats/maxbc.py:34-35 | consecutive segments share endpoints; the chain closes exactly when the ring is stored closed, since no wraparound edge is added |
| Maxbc.Nearest | shapestats/maxbc.py:43 | a candidate's score is at most its distance to every segment and equals one of them |
| Maxbc.Scan | shapestats/maxbc.py:37-46 | the loop returns none exactly for no candidates, otherwise the first candidate with the largest score, with that score |
| Maxbc.MaximumContainedCircle | shapestats/maxbc.py:25-46 | no interior vertex gives the -inf sentinel (a failure), an empty segment list with candidates fails, and otherwise the result is the first best candidate |
| Maxbc.ResultInside | shapestats/maxbc.py:42-46 | the returned centre is an interior Voronoi vertex, and its radius is at most its distance to every boundary segment |
| Amoments.SecondMoa | shapestats/_amoments.py:26-43 | the hole loop, the part loop and the final combination compute the recursive definition of `second_moa` |
| Amoments.PartSum | shapestats/_amoments.py:35-41 | the inner loop over one part accumulates the pair terms of consecutive vertices, with no wraparound pair |
| Amoments.PairTerm | shapestats/_amoments.py:39-41 | a pair in line with the origin (x_i y_{i+1} = x_{i+1} y_i) contributes nothing |
| Amoments.PartMoment | shapestats/_amoments.py:33-41 | a part with fewer than two vertices contributes nothing after reversal |
| Amoments.Outer | shapestats/_amoments.py:32-42 | `outer_I` is 0 when no part has two vertices |
| Amoments.SecondMomentOfArea | shapestats/_amoments.py:26-43 | `second_moa` never exceeds abs(outer_I) / 24, so holes only lower it, and without holes it is never negative |
| Amoments.HoleSum | shapestats/_amoments.py:28-31 | `hole_I`, the sum of the holes' own `second_moa`, is never negative (through the mutual recursion) |
| Amoments.PairTermAntisymmetric | shapestats/_amoments.py:39-41 | swapping the two vertices of a pair negates its term |
| Amoments.PairTermSame | shapestats/_amoments.py:39-41 | a pair of equal vertices contributes nothing |
| Amoments.ChainSumCons | shapestats/_amoments.py:35-41 | the pairwise sum read from the front: first pair plus the rest |
| Amoments.ChainSumReversed | shapestats/_amoments.py:33-41 | for an antisymmetric term, reversing a vertex chain negates its sum |
| Amoments.PairSumReversed | shapestats/_amoments.py:33-41 | reversing a part negates its accumulated moment |
| Amoments.OuterReversed | shapestats/_amoments.py:32-42 | reversing every part negates `outer_I` |
| Amoments.NoHoles | shapestats/_amoments.py:28-29 | with `holes == [[]]` the result is abs(outer_I) / 24, never negative |
| Amoments.OrientationIndependent | shapestats/_amoments.py:32-43 | without holes, reversing the orientation of every part leaves the result unchanged |
| Amoments.RingOrientationIndependent | shapestats/_amoments.py:32-43 | a single ring and its reversal have the same moment |
| Amoments.ShortPartAddsNothing | shapestats/_amoments.py:34-35 | a part with fewer than two vertices adds nothing to `outer_I` |
| Amoments.ClosedRingSum | shapestats/_amoments.py:34-41 | on a ring stored closed the open pairwise sum equals the cyclic sum of the textbook formula, so leaving out the wraparound pair loses nothing |
| Amoments.ClosedRingPrefix | shapestats/_amoments.py:34-41 | each prefix of the closed ring sums to the cyclic sum over that many vertices |
| Amoments.RawHoles | shapestats/_amoments.py:31 | the unscaled hole moments summed are never negative |
| Amoments.HoleFreeMoment | shapestats/_amoments.py:31 | `second_moa(Polygon(hole))` is abs(moment of the hole) / 24 |
| Amoments.HoleSumScaled | shapestats/_amoments.py:31 | `hole_I` is the raw hole moments already divided by 24 |
| Amoments.HolesScaledTwice | shapestats/_amoments.py:31-43 | with holes, the result is (abs(outer_I) - raw holes / 24) / 24: the holes are divided by 24 twice |
| Amoments.UnitSquareReversed | shapestats/_amoments.py:33 | the reversed unit square is the square traversed the other way |
| Amoments.UnitSquareMoment | shapestats/_amoments.py:32-42 | the unit square's accumulated moment is 6, that is I_xy = 1/4 |
| Amoments.SquareHoleCounterexample | shapestats/_amoments.py:28-43 | a unit square has measure 1/4, but a unit square whose hole is itself has measure 23/96, not 0 |
| Amoments.SecondMomentCorrected | shapestats/_amoments.py:31-43 | the corrected measure never exceeds the measure of the parts without their holes |
| Amoments.CorrectedSubtractsHoles | shapestats/_amoments.py:43 | the corrected measure is the hole-free measure minus each hole's measure, and is 0 for the square with itself as hole |
| Util.VertexAngle | shapestats/_util.py:15-17 | entry i is the angle at part[i-1] between part[i-2] and part[i]; entries 0 and 1 use the last two vertices |
| Util.PartAngles | shapestats/_util.py:13-18 | one part's loop fails exactly for a one-vertex part, otherwise yields one angle per vertex, entry i as above |
| Util.AllAngles | shapestats/_util.py:6-19 | `all_angles` fails exactly when some part has one vertex, otherwise returns one list per part with that part's angles |
| Util.Entry | shapestats/_util.py:39-40 | the square matrix is zero on the diagonal |
| Util.EntrySymmetric | shapestats/_util.py:40 | the square matrix is symmetric |
| Util.Row | shapestats/_util.py:39 | the cells of one matrix row, in column order |
| Util.UpperFrom | shapestats/_util.py:39 | the condensed vector's cells are exactly the cells above the diagonal |
| Util.CellsFrom | shapestats/_util.py:42 | the whole matrix, in row-major order |
| Util.Where | shapestats/_util.py:42 | `np.where(sqf == v)` lists exactly the cells holding v, in row-major order |
| Util.Values | shapestats/_util.py:43 | `sqf[cells]` holds the matrix entry of each listed cell |
| Util.Pdist | shapestats/_util.py:39 | the condensed vector is empty exactly for fewer than two points |
| Util.PdistEntry | shapestats/_util.py:39 | every entry of the condensed vector is the distance of a pair i < j |
| Util.PdistIndex | shapestats/_util.py:39 | the distance of every pair i < j is an entry of the condensed vector |
| Util.MinNonzero | shapestats/_util.py:41 | the minimum over non-zero entries: absent exactly when all entries are zero, otherwise a non-zero entry no larger than any non-zero entry |
| Util.MaxOf | shapestats/_util.py:42 | `.max()` is an entry and bounds all entries |
| Util.MinOf | shapestats/_util.py:65 | `.min()` is an entry and is bounded by all entries |
| Util.PairwiseLwFails | shapestats/_util.py:41 | `pairwise_lw` fails exactly when every pairwise distance is zero |
| Util.PairwiseLw | shapestats/_util.py:21-43 | a successful `pairwise_lw` needs two points, pairs every reported cell with its value, and never reports 0 as the minimum |
| Util.MinNonzeroIs | shapestats/_util.py:41 | the minimum is the smallest non-zero distance between two points |
| Util.MaxOfIs | shapestats/_util.py:42 | the maximum is the largest distance between two points |
| Util.WhereAll | shapestats/_util.py:42 | over the whole matrix, `np.where` finds exactly the cells holding the value |
| Util.WhereAttained | shapestats/_util.py:42-43 | a value the matrix holds is found, and `sqf[where]` repeats it |
| Util.CellsAt | shapestats/_util.py:42-43 | for a value the matrix holds, the cell list is non-empty, exactly the cells holding it, and every reported value is that value |
| Util.PairwiseLwMin | shapestats/_util.py:41-43 | the minimum's cells are exactly the cells at the smallest non-zero distance, at least one, and all reported values are equal (the assertion never fails) |
| Util.PairwiseLwMax | shapestats/_util.py:42-43 | the same for the largest distance |
| Util.WhereFirst | shapestats/_util.py:42 | the first listed cell holds the value and comes before every other listed cell |
| Util.WhereFirstUpper | shapestats/_util.py:66 | for a non-zero value the first listed cell is above the diagonal, so its pair is i < j |
| Util.UniqueLwFails | shapestats/_util.py:63 | `unique_lw` fails exactly when `pairwise_lw` does |
| Util.UniqueLw | shapestats/_util.py:45-70 | `unique_lw` fails exactly when `pairwise_lw` does, and otherwise reports a non-zero minimum no larger than the maximum |
| Util.UniqueLwMin | shapestats/_util.py:63-66 | the reported minimum is the smallest non-zero distance, its pair i < j holds it, and no cell holding it comes earlier in row-major order |
| Util.UniqueLwMax | shapestats/_util.py:67-69 | the reported maximum is the largest distance, held by the first cell holding it, at least the minimum, and above the diagonal when non-zero |
| Util.UniqueLwPositive | shapestats/_util.py:63-70 | with a non-negative metric, 0 < min_dist <= max_dist and both pairs lie above the diagonal |
| Compactness.NonNegative | shapestats/compactness.py:171 | `(np.array(A) >= 0).sum()` is at most the number of angles |
| Compactness.NonNegativeExtremes | shapestats/compactness.py:171 | the count is the whole part exactly when no angle is negative, and zero exactly when all are |
| Compactness.CountN | shapestats/compactness.py:168-172 | N counts the non-negative angles of all parts and never exceeds the number of angles |
| Compactness.CountR | shapestats/compactness.py:168-173 | R as written never exceeds the number of negative angles, and equals it while there is at most one part |
| Compactness.Quotient | shapestats/compactness.py:174 | `(N - R) / (N + R)` has no value exactly when N + R is 0 |
| Compactness.QuotientTimes | shapestats/compactness.py:174 | the quotient times N + R is N - R |
| Compactness.TaylorIndex | shapestats/compactness.py:170-174 | the index as written fails only by dividing by zero, and on at most one part equals the documented index |
| Compactness.TaylorCounts | shapestats/compactness.py:168-173 | the loop leaves N and R at the values of the counting functions, with R using the running N |
| Compactness.TaylorReflexive | shapestats/compactness.py:159-174 | `taylor_reflexive` fails exactly when `all_angles` does, and otherwise is the index of the angle lists `all_angles` returns |
| Compactness.CountsOfOnePart | shapestats/compactness.py:170-173 | after one part, N is its non-negative count and R the rest of its angles |
| Compactness.QuotientOfOnePart | shapestats/compactness.py:174 | when N + R = L > 0, the quotient times L is 2N - L |
| Compactness.TaylorSinglePart | shapestats/compactness.py:170-174 | for one part of L > 0 angles, the index is (2N - L) / L |
| Compactness.TaylorFiveOfEight | shapestats/tests/test_measures.py:62-64 | 5 non-negative angles out of 8 give 0.25 |
| Compactness.TaylorTwoPartsCounterexample | shapestats/compactness.py:172-174 | two parts of two non-negative angles each give 3 as written, and 1 when R counts per part |
| Compactness.TaylorIntended | shapestats/compactness.py:163-165 | the index as documented fails exactly when there is no angle at all |
| Compactness.QuotientBounds | shapestats/compactness.py:174 | for counts N and R, not both 0, the quotient lies in [-1, 1] and is 1 exactly when R is 0 |
| Compactness.TaylorIntendedBounds | shapestats/compactness.py:163-165 | the index as documented fails only with no angles, lies in [-1, 1], and is 1 exactly when no angle is reflexive |
| Compactness.Extent | shapestats/compactness.py:201-202 | `np.max(xs) - np.min(xs)` is never negative |
| Compactness.EigSeitzinger | shapestats/compactness.py:199-203 | `eig_seitzinger` fails exactly for an empty point set |
| Compactness.MaxOfIsUnique | shapestats/compactness.py:201 | a value that occurs in the list and bounds it from above is its maximum |
| Compactness.MinOfIsUnique | shapestats/compactness.py:201 | a value that occurs in the list and bounds it from below is its minimum |
| Compactness.ExtentShift | shapestats/compactness.py:201-202 | shifting every value by d shifts the max and min by d and keeps the extent |
| Compactness.WidthTranslated | shapestats/compactness.py:200-201 | translating the points keeps the east-west extent |
| Compactness.HeightTranslated | shapestats/compactness.py:200-202 | translating the points keeps the north-south extent |
| Compactness.SameExtents | shapestats/compactness.py:203 | two point sets with the same extents have the same measure |
| Compactness.EigTranslation | shapestats/compactness.py:199-203 | the measure is unchanged by translating every point |
| Compactness.EigTransposition | shapestats/compactness.py:199-203 | exchanging x and y negates the measure |
| Compactness.EigBounds | shapestats/compactness.py:199-203 | the measure lies between minus the height and the width, and equals the width when all points share one y |
| Compactness.Ipq | shapestats/compactness.py:55 | `ipq` has no value on a zero perimeter, otherwise its value times perimeter squared is 4 pi area |
| Compactness.Iaq | shapestats/compactness.py:81 | `iaq` has no value on a zero perimeter, otherwise its value times the perimeter is 2 pi sqrt(area / pi) |
| Compactness.PolsbyPopper | shapestats/compactness.py:207-211 | `polsby_popper` equals `ipq` |
| Compactness.Schwartzberg | shapestats/compactness.py:213-217 | `schwartzberg` equals `iaq` |

## Left out

- `_mbc_animation` (plotting, directory creation, file output) and the `__main__` block, which reads a shapefile.
- Convex hull, Voronoi diagram and polygon conversion. `MinimumBoundingCircle` takes the hull vertices in the counter-clockwise order scipy lists them. `MaximumContainedCircle` takes the Voronoi vertices and the first part's ring. `_get_pointset`, `asShape` and `Polygon` are not part of this model.
- The shapely `buffer` result when a polygon is passed to either circle routine. The shapely import fallback is left out too.
- libpysal's `get_angle_between`, `contains_point` and `get_segment_point_dist`, scipy's metric, and `np.sqrt` become caller-supplied functions. Their numeric content, including `arccos`, is not modelled.
- Floating point: `decimal.Decimal` rounding in `_circle`, binary64 rounding, and the `np.allclose` tolerance. Arithmetic is exact over the reals, and "angle close to 0" becomes "angle == 0". `math.pi` and `pi/2` are their exact binary64 values.
- `warnings.warn` side effects, the unused `i`, `removed`, `POINTS` and `candidate` variables of the bounding-circle loop, and the float reference values of the tests.
- The other measures of `shapestats/compactness.py`: `convex_hull`, `boundary_amplitude`, `reock`, `contained_circle_aq`, `nmi`, `moa_ratio`, `moment_of_inertia`, `flaherty_crumplin_radius` and `flaherty_crumplin_lw`. `ipq` and `iaq` are stated only as formulas over a given area and perimeter.
- libpysal's re-orientation of rings: a chain's parts and holes are taken as given. The hole-free measure is proved unchanged when every part is reversed together. Parts that wind in different directions cancel in `outer_I`, and the model assumes, as the code does, that all parts wind the same way.
- `setup.py`: packaging only.
- Minbc.CircleOf: radii are squared, and the `-inf` sentinel of a zero-by-zero division is the `Undefined` circle, which sorts below every defined circle. The duplicate-neighbour case is a failure, because Python leaves the result unassigned and raises.
- Minbc.MinimumBoundingCircle: that the circle encloses every hull point and is the smallest such circle is not stated. Both hold only when `between` computes the true signed angles of a convex polygon listed clockwise, and the model keeps `between` abstract. What is proved is that the result is `_circle` of a drawn triple that passed the angle test (`Minbc.Skyum`), and that it passes through two distinct hull points (`Minbc.SkyumThroughTwoPoints`).
- Minbc.Skyum: fewer than two points is one failure. With no points the comprehensions never advance the generator and `lexord[-1]` indexes an empty lexsort; with one point `next` reads `l[-2]`. Decimal's division by zero is a failure.
- Maxbc.MaximumContainedCircle: the sentinel result (radius -inf, centre (nan, nan)) is the `NoInteriorVertex` failure.
- Compactness.Quotient: when N + R is 0 the model reports one failure. Python raises there only when there are no parts at all. With parts, numpy's integer division gives inf or nan with a warning.
- Compactness.Iaq: the square root is a caller-supplied function. The model proves nothing about its value, and `iaq` squared equalling `ipq` is not stated.

## Findings

| source | as written | input that shows it | evidently intended | confidence | as-written member | corrected member |
|---|---|---|---|---|---|---|
| shapestats/_amoments.py:31-43 | `hole_I` sums `second_moa(Polygon(hole))`, already divided by 24, and the final line divides by 24 again | the unit square with itself as its only hole: 23/96 instead of 0 | (abs(outer_I) - sum of abs(hole moment)) / 24, the hole-free measure minus each hole's measure | not executed; follows from the code | Amoments.SquareHoleCounterexample | Amoments.CorrectedSubtractsHoles |
| shapestats/compactness.py:172-173 | `R += len(A) - N` subtracts the running total N of all parts so far | two parts of two non-negative angles each: index 3, outside [-1, 1] | `R += len(A) - ni`, so the index lies in [-1, 1] and is 1 exactly when no angle is reflexive | not executed; follows from the code | Compactness.TaylorTwoPartsCounterexample | Compactness.TaylorIntendedBounds |
