/**
 The area, centroid and inertia computations of cm_moi.py. Each one closes
 the outline, projects it onto its x and y coordinates and runs one loop over
 consecutive vertex pairs. The functions AreaOf, CentroidOf and InertiaOf say
 what each computes; the methods Area, Centroid and Inertia are the loops,
 proved to compute them.
 */
module Moments {
  import opened Ring
  import opened EdgeSums
  import opened Terms

  /** Ixx, Iyy and Ixy, taken about the origin of the input coordinates. */
  datatype Tensor = Tensor(ixx: real, iyy: real, ixy: real)

  /** Signed shoelace area: half the cross-term sum over the closed ring. */
  function AreaOf(pts: seq<Point>): real
    requires |pts| > 0
  {
    EdgeSum(TermOf(Shoelace), Close(pts)) / 2.0
  }

  /** Area-weighted first moments divided by 6 * area; undefined for zero area. */
  function CentroidOf(pts: seq<Point>): Point
    requires |pts| > 0 && AreaOf(pts) != 0.0
  {
    var ring := Close(pts);
    Point(EdgeSum(TermOf(FirstX), ring) / (6.0 * AreaOf(pts)), EdgeSum(TermOf(FirstY), ring) / (6.0 * AreaOf(pts)))
  }

  /** Second moments and product about the origin: no parallel-axis shift is applied. */
  function InertiaOf(pts: seq<Point>): Tensor
    requires |pts| > 0
  {
    var ring := Close(pts);
    Tensor(EdgeSum(TermOf(SecondXX), ring) / 12.0, EdgeSum(TermOf(SecondYY), ring) / 12.0, EdgeSum(TermOf(ProductXY), ring) / 24.0)
  }

  /** The area of a ring that is already closed is computed on that ring as it is. */
  lemma {:induction false} AreaOfClose(pts: seq<Point>)
    requires |pts| > 0
    ensures AreaOf(Close(pts)) == AreaOf(pts)
  {
    CloseIdempotent(pts);
  }

  /** cm_moi.area: the accumulator loop leaves the shoelace sum, halved. */
  method Area(pts: seq<Point>) returns (a: real)
    requires |pts| > 0
    ensures a == AreaOf(pts)
    ensures a == CyclicSum(TermOf(Shoelace), pts) / 2.0
  {
    var ring := Close(pts);
    var x := Xs(ring);
    var y := Ys(ring);
    var s := 0.0;
    for i := 0 to |ring| - 1
      invariant s == EdgeSum(TermOf(Shoelace), ring[..i + 1])
    {
      EdgeSumStep(TermOf(Shoelace), ring, i);
      s := s + (x[i] * y[i + 1] - x[i + 1] * y[i]);
    }
    assert ring[..|ring|] == ring;
    a := s / 2.0;
    TermZeroOnLoops(Shoelace);
    EdgeSumCyclic(TermOf(Shoelace), pts);
  }

  /**
   cm_moi.centroid: closes the ring, calls area on the closed ring (which
   does not close it again) and divides the first-moment sums by 6 * area.
   */
  method Centroid(pts: seq<Point>) returns (cx: real, cy: real)
    requires |pts| > 0 && AreaOf(pts) != 0.0
    ensures Point(cx, cy) == CentroidOf(pts)
    ensures cx == CyclicSum(TermOf(FirstX), pts) / (6.0 * AreaOf(pts))
    ensures cy == CyclicSum(TermOf(FirstY), pts) / (6.0 * AreaOf(pts))
  {
    var ring := Close(pts);
    var x := Xs(ring);
    var y := Ys(ring);
    var sx, sy := 0.0, 0.0;
    var a := Area(ring);
    AreaOfClose(pts);
    for i := 0 to |ring| - 1
      invariant sx == EdgeSum(TermOf(FirstX), ring[..i + 1])
      invariant sy == EdgeSum(TermOf(FirstY), ring[..i + 1])
    {
      EdgeSumStep(TermOf(FirstX), ring, i);
      EdgeSumStep(TermOf(FirstY), ring, i);
      FirstMomentTerms(ring, x, y, i);
      sx := sx + (x[i] + x[i + 1]) * (x[i] * y[i + 1] - x[i + 1] * y[i]);
      sy := sy + (y[i] + y[i + 1]) * (x[i] * y[i + 1] - x[i + 1] * y[i]);
    }
    assert ring[..|ring|] == ring;
    cx, cy := sx / (6.0 * a), sy / (6.0 * a);
    TermZeroOnLoops(FirstX);
    EdgeSumCyclic(TermOf(FirstX), pts);
    TermZeroOnLoops(FirstY);
    EdgeSumCyclic(TermOf(FirstY), pts);
  }

  /** The two first-moment terms of edge i, read off the coordinate lists as the loop does. */
  lemma {:induction false} FirstMomentTerms(ring: seq<Point>, x: seq<real>, y: seq<real>, i: nat)
    requires x == Xs(ring) && y == Ys(ring) && i + 1 < |ring|
    ensures TermOf(FirstX)(ring[i], ring[i + 1]) == (x[i] + x[i + 1]) * (x[i] * y[i + 1] - x[i + 1] * y[i])
    ensures TermOf(FirstY)(ring[i], ring[i + 1]) == (y[i] + y[i + 1]) * (x[i] * y[i + 1] - x[i + 1] * y[i])
  {
    var p, q := ring[i], ring[i + 1];
    assert x[i] == p.x && y[i] == p.y && x[i + 1] == q.x && y[i + 1] == q.y;
  }

  /** The three inertia terms of edge i, read off the coordinate lists as the loop does. */
  lemma {:induction false} SecondMomentTerms(ring: seq<Point>, x: seq<real>, y: seq<real>, i: nat)
    requires x == Xs(ring) && y == Ys(ring) && i + 1 < |ring|
    ensures Term(SecondXX, ring[i], ring[i + 1])
         == (y[i] * y[i] + y[i] * y[i + 1] + y[i + 1] * y[i + 1]) * (x[i] * y[i + 1] - x[i + 1] * y[i])
    ensures Term(SecondYY, ring[i], ring[i + 1])
         == (x[i] * x[i] + x[i] * x[i + 1] + x[i + 1] * x[i + 1]) * (x[i] * y[i + 1] - x[i + 1] * y[i])
    ensures Term(ProductXY, ring[i], ring[i + 1])
         == (x[i] * y[i + 1] + 2.0 * x[i] * y[i] + 2.0 * x[i + 1] * y[i + 1] + x[i + 1] * y[i])
            * (x[i] * y[i + 1] - x[i + 1] * y[i])
  {
    var p, q := ring[i], ring[i + 1];
    assert x[i] == p.x && y[i] == p.y && x[i + 1] == q.x && y[i + 1] == q.y;
  }

  /**
   cm_moi.inertia: calls area and centroid on the closed ring, so it fails
   where centroid fails (zero area), although the moments it returns are
   the plain sums over 12 and 24 and use neither result.
   */
  method Inertia(pts: seq<Point>) returns (ixx: real, iyy: real, ixy: real)
    requires |pts| > 0 && AreaOf(pts) != 0.0
    ensures Tensor(ixx, iyy, ixy) == InertiaOf(pts)
    ensures ixx == CyclicSum(TermOf(SecondXX), pts) / 12.0
    ensures iyy == CyclicSum(TermOf(SecondYY), pts) / 12.0
    ensures ixy == CyclicSum(TermOf(ProductXY), pts) / 24.0
  {
    var ring := Close(pts);
    var x := Xs(ring);
    var y := Ys(ring);
    var sxx, syy, sxy := 0.0, 0.0, 0.0;
    var a := Area(ring);
    AreaOfClose(pts);
    var cx, cy := Centroid(ring);
    for i := 0 to |ring| - 1
      invariant sxx == EdgeSum(TermOf(SecondXX), ring[..i + 1])
      invariant syy == EdgeSum(TermOf(SecondYY), ring[..i + 1])
      invariant sxy == EdgeSum(TermOf(ProductXY), ring[..i + 1])
    {
      EdgeSumStep(TermOf(SecondXX), ring, i);
      EdgeSumStep(TermOf(SecondYY), ring, i);
      EdgeSumStep(TermOf(ProductXY), ring, i);
      SecondMomentTerms(ring, x, y, i);
      sxx := sxx + (y[i] * y[i] + y[i] * y[i + 1] + y[i + 1] * y[i + 1]) * (x[i] * y[i + 1] - x[i + 1] * y[i]);
      syy := syy + (x[i] * x[i] + x[i] * x[i + 1] + x[i + 1] * x[i + 1]) * (x[i] * y[i + 1] - x[i + 1] * y[i]);
      sxy := sxy + (x[i] * y[i + 1] + 2.0 * x[i] * y[i] + 2.0 * x[i + 1] * y[i + 1] + x[i + 1] * y[i])
                   * (x[i] * y[i + 1] - x[i + 1] * y[i]);
    }
    assert ring[..|ring|] == ring;
    ixx, iyy, ixy := sxx / 12.0, syy / 12.0, sxy / 24.0;
    TermZeroOnLoops(SecondXX);
    EdgeSumCyclic(TermOf(SecondXX), pts);
    TermZeroOnLoops(SecondYY);
    EdgeSumCyclic(TermOf(SecondYY), pts);
    TermZeroOnLoops(ProductXY);
    EdgeSumCyclic(TermOf(ProductXY), pts);
  }
}
