# Cross-section moments of cm_moi.py, in Dafny

`cm_moi.py` computes the section properties of a plane cross-section. The
section is given as an ordered list of vertices `(x, y)`. It computes:

- `area`: the signed shoelace area.
- `centroid`: the first moments divided by six times the area.
- `inertia`: the second moments `Ixx`, `Iyy` and the product `Ixy`.
- `principal`: the principal moments `I1 >= I2`, derived from the three inertia values.

`area`, `centroid` and `inertia` all start the same way. When the last
vertex differs from the first, they close the outline by appending the first
vertex; otherwise they leave it as it is. Each then runs one accumulator loop
over consecutive vertex pairs.

This project models that core with exact real coordinates:

- `ring.dfy` (module `Ring`): vertices, the ring-closing step and the
  coordinate lists `x` and `y`. It also has reversal and translation of an
  outline, which the properties use.
- `edge_sums.dfy` (module `EdgeSums`): the sum of a per-edge term over a
  ring, `EdgeSum`, and a wrap-around reference definition, `CyclicSum`. The
  generic lemmas here hold for any term: closing, reversal, translation and
  telescoping.
- `terms.dfy` (module `Terms`): the six per-edge terms the loops accumulate:
  `s`, `sx`, `sy`, `sxx`, `syy` and `sxy`.
- `moments.dfy` (module `Moments`): the specification functions `AreaOf`,
  `CentroidOf` and `InertiaOf`. It also has the imperative methods `Area`,
  `Centroid` and `Inertia`. These are the source's loops, with invariants tying
  each accumulator to the prefix sum. Like the source, `Centroid` calls `Area`,
  and `Inertia` calls both `Area` and `Centroid`.
- `properties.dfy` (module `MomentProperties`): closure idempotence,
  reversal and translation.
- `principal.dfy` (module `PrincipalMoments`): the principal moments, with
  the square root supplied as a parameter `r` that must be the non-negative
  root of `diff^2 + Ixy^2`.
- `unit_square.dfy` (module `UnitSquare`): the unit square worked through
  every stage.

Ways the model departs from the documentation or the source:

- `inertia` returns moments about the origin of the input coordinates. Its
  doc string says "about centroid", but the parallel-axis return on
  `cm_moi.py:46` is commented out and the active return on line 47 is not
  shifted. The model follows line 47.
- `inertia` still calls `centroid`, which divides by `6*a`. So `Inertia`
  requires a non-zero area, even though its results do not use that call.
- Python raises `IndexError` on an empty list, so every operation requires a
  non-empty outline.
- Python raises `ZeroDivisionError` in `centroid` when the area is zero. Here
  that is the precondition `AreaOf(pts) != 0.0`.
- Nothing in the source checks for at least three vertices, and the model
  accepts one- and two-vertex outlines too. `DegenerateOutline` shows
  they have zero area and zero sums `sxx`, `syy` and `sxy`. `centroid` and `inertia`
  both raise on them, since the area is zero.
  `CollinearOutline` shows the same zero area for any number of collinear vertices.

## Model

| member | source | states |
|---|---|---|
| Ring.Close | cm_moi.py:7-8 | The closed ring starts and ends at the same vertex. It is the input extended by `pts[0]` when first and last differ, and the input itself when they are equal. The input is not changed. |
| Ring.IsClosed | cm_moi.py:7 | The test that decides whether the ring is closed: the first vertex equals the last one. It is a definition with no contract of its own; `Close` states what follows from it. |
| Ring.CloseOfClosed | cm_moi.py:7-8 | An outline whose first and last vertices are equal is returned unchanged, so nothing is doubled. |
| Ring.CloseIdempotent | cm_moi.py:20-25 | Closing a closed ring again returns it unchanged. This is why `area` called from `centroid` on the closed ring sees the same ring. |
| Ring.Xs | cm_moi.py:9 | The x list has one entry per vertex, and entry i is the x coordinate of vertex i. |
| Ring.Ys | cm_moi.py:10 | The y list has one entry per vertex, and entry i is the y coordinate of vertex i. |
| Ring.CloseTranslate | cm_moi.py:7-8 | Translating an outline and closing it commute: translation keeps the first and last vertex equal or distinct. |
| EdgeSums.EdgeSumStep | cm_moi.py:12-13 | One more loop iteration adds the term of edge i to the prefix sum over the first i + 1 vertices. |
| EdgeSums.EdgeSum | cm_moi.py:12-13 | The value an accumulator loop leaves after running over a ring: the sum of the edge term over consecutive vertex pairs. It is a definition with no contract of its own; `EdgeSumStep` ties it to one loop iteration, and the methods of `Moments` prove the loops compute it. |
| EdgeSums.EdgeSumClosed | cm_moi.py:7-13 | For a term that is zero on a zero-length edge, the sum over the closed ring is the sum along the outline plus the closing edge, whether the input was closed or not. |
| EdgeSums.CyclicPrefixIsEdgeSum | cm_moi.py:12-13 | Before the wrap-around edge, the wrap-around reference sum equals the loop's prefix sum. |
| EdgeSums.CyclicSum | cm_moi.py:7-13 | An independent reference for the closed-ring sum, reading the vertices with wrap-around indices and not building a closed copy. It is a definition with no contract of its own; `EdgeSumCyclic` proves it equal to the loop sum. |
| EdgeSums.EdgeSumCyclic | cm_moi.py:7-13 | Closing the ring and looping over it gives the wrap-around sum `f(pts[i], pts[(i+1) % n])` over all n edges. |
| EdgeSums.AntisymmetricZeroOnLoops | cm_moi.py:13 | A term that changes sign with edge direction is zero on a zero-length edge. |
| EdgeSums.EdgeSumReverse | cm_moi.py:12-13 | Walking a path backwards negates the sum of an antisymmetric term. |
| EdgeSums.EdgeSumCloseAppend | cm_moi.py:7-8 | Repeating the first vertex at the end leaves the closed-ring sum unchanged. |
| EdgeSums.EdgeSumCloseReverse | cm_moi.py:7-13 | Reversing the outline negates the closed-ring sum of an antisymmetric term. |
| EdgeSums.EdgeSumDegenerate | cm_moi.py:7-13 | An outline of one or two vertices closes into a ring over which an antisymmetric term sums to zero. |
| EdgeSums.EdgeSumTranslate | cm_moi.py:12-13 | Summing a term over a translated path equals summing the shifted term over the original path. |
| EdgeSums.EdgeSumTelescope | cm_moi.py:12-13 | If a term is another term plus d times a third plus a potential difference, its path sum has the same form, with the potentials telescoping to last minus first. |
| EdgeSums.EdgeSumTranslateTelescope | cm_moi.py:12-13 | That telescoping identity, applied to the sum over a translated path. |
| Terms.TermAntisymmetric | cm_moi.py:43-45 | Every accumulated term, including `s`, `sx` and `sy` on lines 13 and 27-28, changes sign when the edge is walked the other way. |
| Terms.TermZeroOnLoops | cm_moi.py:13 | A zero-length edge adds nothing to any accumulator. |
| Terms.Cross | cm_moi.py:13 | The cross term `x[i]*y[i+1] - x[i+1]*y[i]` of one edge, the common factor of every increment. It is a definition with no contract of its own; `TermAntisymmetric` proves it changes sign with the edge. |
| Terms.Term | cm_moi.py:43-45 | The increment of each of the six accumulators for one edge, `s` on line 13, `sx` and `sy` on lines 27-28 and the three on lines 43-45. It is a definition with no contract of its own; `FirstMomentTerms` and `SecondMomentTerms` prove it equal to the increments as the loops read them. |
| Moments.AreaOfClose | cm_moi.py:25 | `area` applied to the already closed ring equals `area` of the original outline. |
| Moments.AreaOf | cm_moi.py:4-14 | What `area` returns: half the shoelace sum over the closed ring. It is a definition with no contract of its own; `Area` proves the loop computes it, and the closure, reversal, translation and unit-square lemmas are stated about it. |
| Moments.CentroidOf | cm_moi.py:17-29 | What `centroid` returns for a non-zero area: the two first-moment sums over the closed ring, each divided by six times the area. It is a definition with no contract of its own; `Centroid` proves the loop computes it. |
| Moments.InertiaOf | cm_moi.py:32-47 | What `inertia` returns: `sxx/12`, `syy/12` and `sxy/24` over the closed ring, about the origin. It is a definition with no contract of its own; `Inertia` proves the loop computes it. |
| Moments.Area | cm_moi.py:4-14 | The loop leaves half the shoelace sum over the closed ring. This equals half the wrap-around sum of `x[i]*y[i+1] - x[i+1]*y[i]` over the outline. The invariant is that `s` is the prefix sum. |
| Moments.Centroid | cm_moi.py:17-29 | For non-zero area, the loop leaves `sx` and `sy`, the wrap-around first-moment sums, and returns each divided by `6*a`. |
| Moments.FirstMomentTerms | cm_moi.py:27-28 | The increments of `sx` and `sy`, read from the coordinate lists, are the first-moment terms of edge i. |
| Moments.SecondMomentTerms | cm_moi.py:43-45 | The increments of `sxx`, `syy` and `sxy`, read from the coordinate lists, are the second-moment terms of edge i. |
| Moments.Inertia | cm_moi.py:32-47 | Requires a non-zero area, because of the `centroid` call. Returns the wrap-around sums `sxx/12`, `syy/12` and `sxy/24` about the origin. |
| MomentProperties.AreaClosureIdempotent | cm_moi.py:7-14 | `area` gives the same value on `pts` and on `pts + [pts[0]]`. |
| MomentProperties.CentroidClosureIdempotent | cm_moi.py:20-29 | `centroid` gives the same point on `pts` and on `pts + [pts[0]]`, and stays defined. |
| MomentProperties.InertiaClosureIdempotent | cm_moi.py:35-47 | `inertia` gives the same three moments on `pts` and on `pts + [pts[0]]`. |
| MomentProperties.DegenerateOutline | cm_moi.py:4-47 | With no check for at least three vertices, an outline of one or two vertices has zero area and zero sums `sxx`, `syy` and `sxy`. `centroid` and `inertia` both raise on it, since the area is zero. |
| MomentProperties.CrossOnLine | cm_moi.py:13 | An edge between two points of one line through the origin adds nothing to `s`. |
| MomentProperties.LineSum | cm_moi.py:11-13 | The shoelace sum along a path whose vertices all lie on one line through the origin is zero. |
| MomentProperties.LineToOrigin | cm_moi.py:12-14 | A step of `CollinearOutline`, whose area sum is the one on lines 12-14. Moving collinear vertices by minus a point of their line puts them on a parallel line through the origin, at the same parameters, and moving them back restores them. |
| MomentProperties.CloseOnLine | cm_moi.py:7-8 | Closing a ring of points on a line keeps every vertex on it, because the appended vertex is the first one. |
| MomentProperties.CollinearOutline | cm_moi.py:4-14 | Any number of collinear vertices gives area 0. So `centroid`, which divides by it at line 29, and `inertia`, which calls `centroid` at line 41, cannot be computed on such an outline. |
| MomentProperties.AreaReverse | cm_moi.py:12-14 | Reversing the vertex order negates the area. |
| MomentProperties.CentroidReverse | cm_moi.py:26-29 | Reversing the vertex order leaves the centroid where it is: numerators and area both change sign. |
| MomentProperties.InertiaReverse | cm_moi.py:42-47 | Reversing the vertex order negates `Ixx`, `Iyy` and `Ixy`. |
| MomentProperties.TermTranslate | cm_moi.py:27-28 | The term of a translated edge equals the old term, plus a drift multiple of the cross term, plus a potential difference between the edge's ends. |
| MomentProperties.ShiftedTermTelescopes | cm_moi.py:27-28 | That identity holds for every edge at once. |
| MomentProperties.PathSumTranslate | cm_moi.py:26-28 | Along an open path, translation adds the drift times the shoelace sum plus the end-point potentials. |
| MomentProperties.RingSumTranslate | cm_moi.py:20-28 | On the closed ring the potentials cancel. Translation adds exactly the drift times the shoelace sum: zero for `s`, `3*dx*s` for `sx` and `3*dy*s` for `sy`. |
| MomentProperties.AreaTranslate | cm_moi.py:12-14 | Translating every vertex by (dx, dy) leaves the area unchanged. |
| MomentProperties.CoordinateTranslate | cm_moi.py:29 | Adding `3*d*s` to a first-moment sum moves the centroid coordinate `sx/(6*a)` by d. |
| MomentProperties.CentroidTranslate | cm_moi.py:17-29 | For non-zero area, translating every vertex by (dx, dy) moves the centroid by exactly (dx, dy). |
| PrincipalMoments.Principal | cm_moi.py:53-56 | Given r, the root of `diff^2 + Ixy^2`, returns I1 and I2 with `I1 >= I2` and `I1 + I2 == Ixx + Iyy` (the trace is kept). |
| PrincipalMoments.RootUnique | cm_moi.py:55-56 | The non-negative square root is unique, so the result does not depend on which r satisfies the contract. |
| PrincipalMoments.PrincipalCharacteristic | cm_moi.py:53-56 | k satisfies `(Ixx - k)(Iyy - k) == Ixy^2` if and only if k is I1 or I2. These are the eigenvalues of the inertia tensor, and there are no others. |
| PrincipalMoments.PrincipalBounds | cm_moi.py:55-56 | I1 is at least both Ixx and Iyy, and I2 is at most both. |
| PrincipalMoments.RadiusOfIsotropic | cm_moi.py:55-56 | With `Ixx == Iyy` and `Ixy == 0` the square root is zero. |
| PrincipalMoments.PrincipalIsotropic | cm_moi.py:53-56 | If `Ixx == Iyy` and `Ixy == 0`, then `I1 == I2 == Ixx`. Conversely, `I1 == I2` forces `Ixx == Iyy` and `Ixy == 0`. |
| PrincipalMoments.IsotropicOfRadius | cm_moi.py:55-56 | A zero square root forces `Ixx == Iyy` and `Ixy == 0`. |
| PrincipalMoments.PrincipalDeterminant | cm_moi.py:53-56 | `I1 * I2 == Ixx * Iyy - Ixy^2`: the principal moments keep the determinant of the tensor. |
| UnitSquare.SquareSum | cm_moi.py:12-13 | Over the closed unit square, any accumulator is the sum of its four edge terms. |
| UnitSquare.SquareArea | cm_moi.py:4-14 | The unit square (0,0), (1,0), (1,1), (0,1) has area 1. |
| UnitSquare.SquareFirstMoment | cm_moi.py:26-28 | For the unit square, `sx` and `sy` are both 3. |
| UnitSquare.SquareCentroid | cm_moi.py:17-29 | The unit square has centroid (1/2, 1/2). |
| UnitSquare.SquareInertia | cm_moi.py:32-47 | The unit square has `Ixx = Iyy = 1/3` and `Ixy = 1/4` about the origin. |
| UnitSquare.SquarePrincipal | cm_moi.py:53-56 | Fed the square's computed `Ixx`, `Iyy` and `Ixy`, with radius 1/4, `principal` gives 7/12 and 1/12. |

## Left out

- `theta = atan2(-Ixy, diff)/2` (`cm_moi.py:57`): the principal direction is transcendental and is not modelled. `Principal` returns only I1 and I2.
- The square root (`cm_moi.py:55-56`) is not computed. The caller supplies `r` with `r >= 0` and `r*r == diff^2 + Ixy^2`, and `RootUnique` shows that this determines `r`.
- `summary` (`cm_moi.py:61-81`): text formatting and the `degrees` conversion.
- `outline` (`cm_moi.py:84-125`): matplotlib plotting and file output. The `matplotlib` import is not modelled either.
- The `__main__` demo (`cm_moi.py:127` onward): fixed data and printing.
- Floating point: coordinates are exact reals. Rounding, overflow, NaN and the int/float mix of Python's arithmetic are not modelled.
- `ZeroDivisionError` in `centroid` and `inertia` for a zero-area outline, and `IndexError` for an empty list, are preconditions rather than modelled error paths.
- Inertia under translation: only the area and the centroid are stated under translation. The second moments about the origin change by parallel-axis terms, and that change is not stated.
- Orientation: the convention that a simple outline walked counter-clockwise has positive area, and a clockwise one negative area, is not stated. The model has no notion of a simple (non-self-intersecting) polygon, or of orientation apart from the sign of the shoelace sum itself. Stating it would need a winding-number or Jordan-curve argument, which the source neither makes nor relies on. What is proved is that reversing the vertex order negates the area (`AreaReverse`), and that the counter-clockwise unit square has area 1 (`SquareArea`).
- UnitSquare: the lemmas take the square as any four-vertex outline with the unit square's vertices in that order, not as one sequence literal.
