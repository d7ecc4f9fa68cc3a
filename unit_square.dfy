/**
 The unit square worked through every stage of cm_moi.py: the open outline
 (0,0), (1,0), (1,1), (0,1), traversed counter-clockwise.
 */
module UnitSquare {
  import opened Ring
  import opened EdgeSums
  import opened Terms
  import opened Moments
  import opened PrincipalMoments

  /**
   The outline (0,0), (1,0), (1,1), (0,1), not closed. It is given by its
   vertices rather than as one sequence literal, so that the verifier reasons
   about the sums over it step by step instead of evaluating them whole.
   */
  predicate IsUnitSquare(pts: seq<Point>)
  {
    |pts| == 4 && pts[0] == Point(0.0, 0.0) && pts[1] == Point(1.0, 0.0)
    && pts[2] == Point(1.0, 1.0) && pts[3] == Point(0.0, 1.0)
  }

  /** A four-vertex outline closed by repeating its first vertex has four edges. */
  lemma {:induction false} EdgeSumQuad(f: EdgeTerm, a: Point, b: Point, c: Point, d: Point)
    ensures EdgeSum(f, [a, b, c, d, a]) == f(a, b) + f(b, c) + f(c, d) + f(d, a)
  {
    EdgeSumSnoc(f, [a, b, c, d], a);
    EdgeSumSnoc(f, [a, b, c], d);
    EdgeSumSnoc(f, [a, b], c);
    assert [a, b] + [c] == [a, b, c];
    assert [a, b, c] + [d] == [a, b, c, d];
    assert [a, b, c, d] + [a] == [a, b, c, d, a];
  }

  /** Any per-edge sum over the closed square is the sum over its four edges. */
  lemma {:induction false} SquareSum(f: EdgeTerm, pts: seq<Point>)
    requires IsUnitSquare(pts)
    ensures EdgeSum(f, Close(pts))
         == f(Point(0.0, 0.0), Point(1.0, 0.0)) + f(Point(1.0, 0.0), Point(1.0, 1.0))
            + f(Point(1.0, 1.0), Point(0.0, 1.0)) + f(Point(0.0, 1.0), Point(0.0, 0.0))
  {
    assert Close(pts) == [pts[0], pts[1], pts[2], pts[3], pts[0]];
    EdgeSumQuad(f, pts[0], pts[1], pts[2], pts[3]);
  }

  /** Area 1. */
  lemma SquareArea(pts: seq<Point>)
    requires IsUnitSquare(pts)
    ensures AreaOf(pts) == 1.0
  {
    SquareSum(TermOf(Shoelace), pts);
  }

  /** Both first-moment sums of the square are 3. */
  lemma SquareFirstMoment(m: Moment, pts: seq<Point>)
    requires IsUnitSquare(pts) && (m == FirstX || m == FirstY)
    ensures EdgeSum(TermOf(m), Close(pts)) == 3.0
  {
    SquareSum(TermOf(m), pts);
  }

  /** Centroid (1/2, 1/2). */
  lemma SquareCentroid(pts: seq<Point>)
    requires IsUnitSquare(pts)
    ensures AreaOf(pts) != 0.0
    ensures CentroidOf(pts) == Point(0.5, 0.5)
  {
    SquareArea(pts);
    SquareFirstMoment(FirstX, pts);
    SquareFirstMoment(FirstY, pts);
  }

  /** About the origin: Ixx = Iyy = 1/3 and Ixy = 1/4. */
  lemma SquareInertia(pts: seq<Point>)
    requires IsUnitSquare(pts)
    ensures InertiaOf(pts) == Tensor(1.0 / 3.0, 1.0 / 3.0, 0.25)
  {
    SquareSum(TermOf(SecondXX), pts);
    SquareSum(TermOf(SecondYY), pts);
    SquareSum(TermOf(ProductXY), pts);
  }

  /** Its principal moments are 1/3 + 1/4 = 7/12 and 1/3 - 1/4 = 1/12, the radius being 1/4. */
  lemma SquarePrincipal(pts: seq<Point>)
    requires IsUnitSquare(pts)
    ensures IsRadius(InertiaOf(pts).ixx, InertiaOf(pts).iyy, InertiaOf(pts).ixy, 0.25)
    ensures Principal(InertiaOf(pts).ixx, InertiaOf(pts).iyy, InertiaOf(pts).ixy, 0.25) == Axes(7.0 / 12.0, 1.0 / 12.0)
  {
    SquareInertia(pts);
  }
}
