/**
 Properties of the moments of cm_moi.py that relate several computations:
 an explicitly closed outline gives the same results as the open one,
 reversing the outline flips every signed moment, and translating it leaves
 the area alone and carries the centroid along.
 */
module MomentProperties {
  import opened Ring
  import opened EdgeSums
  import opened Terms
  import opened Moments

  // ----- Closure idempotence -----

  /** An outline that already repeats its first vertex has the same area as the open one. */
  lemma {:induction false} AreaClosureIdempotent(pts: seq<Point>)
    requires |pts| > 0
    ensures AreaOf(pts + [pts[0]]) == AreaOf(pts)
  {
    TermZeroOnLoops(Shoelace);
    EdgeSumCloseAppend(TermOf(Shoelace), pts);
  }

  /** The same holds for the centroid, which stays defined. */
  lemma {:induction false} CentroidClosureIdempotent(pts: seq<Point>)
    requires |pts| > 0 && AreaOf(pts) != 0.0
    ensures AreaOf(pts + [pts[0]]) != 0.0
    ensures CentroidOf(pts + [pts[0]]) == CentroidOf(pts)
  {
    AreaClosureIdempotent(pts);
    TermZeroOnLoops(FirstX);
    TermZeroOnLoops(FirstY);
    EdgeSumCloseAppend(TermOf(FirstX), pts);
    EdgeSumCloseAppend(TermOf(FirstY), pts);
  }

  /** And for the three second moments. */
  lemma {:induction false} InertiaClosureIdempotent(pts: seq<Point>)
    requires |pts| > 0
    ensures InertiaOf(pts + [pts[0]]) == InertiaOf(pts)
  {
    TermZeroOnLoops(SecondXX);
    TermZeroOnLoops(SecondYY);
    TermZeroOnLoops(ProductXY);
    EdgeSumCloseAppend(TermOf(SecondXX), pts);
    EdgeSumCloseAppend(TermOf(SecondYY), pts);
    EdgeSumCloseAppend(TermOf(ProductXY), pts);
  }

  /**
   Nothing checks for at least three vertices: one or two give zero area and
   zero second-moment sums, though centroid and inertia cannot be called on
   them, the area being zero.
   */
  lemma {:induction false} DegenerateOutline(pts: seq<Point>)
    requires 0 < |pts| < 3
    ensures AreaOf(pts) == 0.0
    ensures InertiaOf(pts) == Tensor(0.0, 0.0, 0.0)
  {
    TermAntisymmetric(Shoelace);
    TermAntisymmetric(SecondXX);
    TermAntisymmetric(SecondYY);
    TermAntisymmetric(ProductXY);
    EdgeSumDegenerate(TermOf(Shoelace), pts);
    EdgeSumDegenerate(TermOf(SecondXX), pts);
    EdgeSumDegenerate(TermOf(SecondYY), pts);
    EdgeSumDegenerate(TermOf(ProductXY), pts);
  }

  /** An edge between two points of one line through the origin has a zero cross term. */
  lemma CrossOnLine(p: Point, q: Point, s: real, t: real, vx: real, vy: real)
    requires p == Point(s * vx, s * vy) && q == Point(t * vx, t * vy)
    ensures Term(Shoelace, p, q) == 0.0
  {
    assert (s * vx) * (t * vy) == (t * vx) * (s * vy);
  }

  /** The shoelace sum along a path whose vertices all lie on one line through the origin is zero. */
  lemma {:induction false} LineSum(r: seq<Point>, us: seq<real>, vx: real, vy: real)
    requires OnLine(r, us, vx, vy)
    ensures EdgeSum(TermOf(Shoelace), r) == 0.0
  {
    var n := |r|;
    if n >= 2 {
      var front, ufront := r[..n - 1], us[..n - 1];
      forall i | 0 <= i < |front|
        ensures front[i] == Point(ufront[i] * vx, ufront[i] * vy)
      {
        assert front[i] == r[i] && ufront[i] == us[i];
      }
      LineSum(front, ufront, vx, vy);
      CrossOnLine(r[n - 2], r[n - 1], us[n - 2], us[n - 1], vx, vy);
      assert EdgeSum(TermOf(Shoelace), r) == EdgeSum(TermOf(Shoelace), front) + TermOf(Shoelace)(r[n - 2], r[n - 1]);
    }
  }

  /** Vertices on a line through the origin, at parameters us along direction (vx, vy). */
  ghost predicate OnLine(r: seq<Point>, us: seq<real>, vx: real, vy: real)
  {
    |us| == |r| && forall i :: 0 <= i < |r| ==> r[i] == Point(us[i] * vx, us[i] * vy)
  }

  /** Moving a line through (ax, ay) by (-ax, -ay) puts it through the origin, and moving back restores it. */
  lemma {:induction false} LineToOrigin(pts: seq<Point>, ts: seq<real>, ax: real, ay: real, vx: real, vy: real)
    requires |ts| == |pts|
    requires forall i :: 0 <= i < |pts| ==> pts[i] == Point(ax + ts[i] * vx, ay + ts[i] * vy)
    ensures OnLine(Translate(pts, -ax, -ay), ts, vx, vy)
    ensures Translate(Translate(pts, -ax, -ay), ax, ay) == pts
  {
    var q := Translate(pts, -ax, -ay);
    forall i | 0 <= i < |q|
      ensures q[i] == Point(ts[i] * vx, ts[i] * vy)
    {
      assert q[i] == Shift(pts[i], -ax, -ay);
    }
    assert Translate(q, ax, ay) == pts;
  }

  /** Closing the ring keeps every vertex on the line: the appended vertex is the first one. */
  lemma {:induction false} CloseOnLine(q: seq<Point>, ts: seq<real>, vx: real, vy: real) returns (us: seq<real>)
    requires |q| > 0 && OnLine(q, ts, vx, vy)
    ensures OnLine(Close(q), us, vx, vy)
  {
    var ring := Close(q);
    us := if IsClosed(q) then ts else ts + [ts[0]];
    forall i | 0 <= i < |ring|
      ensures ring[i] == Point(us[i] * vx, us[i] * vy)
    {
      if i < |q| {
        assert ring[i] == ring[..|q|][i];
      }
    }
  }

  /**
   Collinear vertices, at positions (ax, ay) + t * (vx, vy), give zero area:
   centroid and inertia, which divide by it, are undefined on such an outline.
   */
  lemma {:induction false} CollinearOutline(pts: seq<Point>, ts: seq<real>, ax: real, ay: real, vx: real, vy: real)
    requires |pts| > 0 && |ts| == |pts|
    requires forall i :: 0 <= i < |pts| ==> pts[i] == Point(ax + ts[i] * vx, ay + ts[i] * vy)
    ensures AreaOf(pts) == 0.0
  {
    LineToOrigin(pts, ts, ax, ay, vx, vy);
    AreaTranslate(Translate(pts, -ax, -ay), ax, ay);
    var us := CloseOnLine(Translate(pts, -ax, -ay), ts, vx, vy);
    LineSum(Close(Translate(pts, -ax, -ay)), us, vx, vy);
  }

  // ----- Orientation -----

  /** Clockwise and counter-clockwise traversals give areas of opposite sign. */
  lemma {:induction false} AreaReverse(pts: seq<Point>)
    requires |pts| > 0
    ensures AreaOf(Reverse(pts)) == -AreaOf(pts)
  {
    TermAntisymmetric(Shoelace);
    EdgeSumCloseReverse(TermOf(Shoelace), pts);
  }

  /** Negating both the numerator and the denominator leaves a quotient unchanged. */
  lemma NegatedQuotient(u: real, d: real)
    requires d != 0.0
    ensures (-u) / (-d) == u / d
  {
  }

  /** Numerators and area all change sign, so the centroid does not depend on orientation. */
  lemma {:induction false} CentroidReverse(pts: seq<Point>)
    requires |pts| > 0 && AreaOf(pts) != 0.0
    ensures AreaOf(Reverse(pts)) != 0.0
    ensures CentroidOf(Reverse(pts)) == CentroidOf(pts)
  {
    AreaReverse(pts);
    TermAntisymmetric(FirstX);
    TermAntisymmetric(FirstY);
    EdgeSumCloseReverse(TermOf(FirstX), pts);
    EdgeSumCloseReverse(TermOf(FirstY), pts);
    var a := AreaOf(pts);
    assert 6.0 * AreaOf(Reverse(pts)) == -(6.0 * a);
    NegatedQuotient(EdgeSum(TermOf(FirstX), Close(pts)), 6.0 * a);
    NegatedQuotient(EdgeSum(TermOf(FirstY), Close(pts)), 6.0 * a);
  }

  /** The second moments and the product are signed sums too: reversal negates all three. */
  lemma {:induction false} InertiaReverse(pts: seq<Point>)
    requires |pts| > 0
    ensures InertiaOf(Reverse(pts)).ixx == -InertiaOf(pts).ixx
    ensures InertiaOf(Reverse(pts)).iyy == -InertiaOf(pts).iyy
    ensures InertiaOf(Reverse(pts)).ixy == -InertiaOf(pts).ixy
  {
    TermAntisymmetric(SecondXX);
    TermAntisymmetric(SecondYY);
    TermAntisymmetric(ProductXY);
    EdgeSumCloseReverse(TermOf(SecondXX), pts);
    EdgeSumCloseReverse(TermOf(SecondYY), pts);
    EdgeSumCloseReverse(TermOf(ProductXY), pts);
  }

  // ----- Translation -----

  /** The accumulators of area and centroid, whose behaviour under translation is stated here. */
  predicate IsFirstOrder(m: Moment)
  {
    m.Shoelace? || m.FirstX? || m.FirstY?
  }

  /** How many times the area sum a translation by (dx, dy) adds to the sum of m. */
  function Drift(m: Moment, dx: real, dy: real): real
    requires IsFirstOrder(m)
  {
    match m
    case Shoelace => 0.0
    case FirstX => 3.0 * dx
    case FirstY => 3.0 * dy
  }

  /** A vertex potential whose differences along a path telescope away on a closed ring. */
  function Potential(m: Moment, p: Point, dx: real, dy: real): real
    requires IsFirstOrder(m)
  {
    match m
    case Shoelace => dx * p.y - dy * p.x
    case FirstX => -dy * p.x * p.x + dx * p.x * p.y - 2.0 * dx * dy * p.x + 2.0 * dx * dx * p.y
    case FirstY => -dy * p.x * p.y + dx * p.y * p.y - 2.0 * dy * dy * p.x + 2.0 * dx * dy * p.y
  }

  /** The potential of m as a value. */
  function PotentialOf(m: Moment, dx: real, dy: real): Point -> real
    requires IsFirstOrder(m)
  {
    p => Potential(m, p, dx, dy)
  }

  /** The term of a translated edge: the old term, a multiple of the cross term, and a potential difference. */
  lemma TermTranslate(m: Moment, p: Point, q: Point, dx: real, dy: real)
    requires IsFirstOrder(m)
    ensures Term(m, Shift(p, dx, dy), Shift(q, dx, dy))
         == Term(m, p, q) + Drift(m, dx, dy) * Cross(p, q) + Potential(m, q, dx, dy) - Potential(m, p, dx, dy)
  {
    var c := Cross(p, q);
    var c' := Cross(Shift(p, dx, dy), Shift(q, dx, dy));
    assert c' == c + dy * (p.x - q.x) + dx * (q.y - p.y);
    match m
    case Shoelace =>
    case FirstX =>
      assert (p.x + q.x) * (q.y - p.y) == c + q.x * q.y - p.x * p.y;
    case FirstY =>
      assert (p.y + q.y) * (p.x - q.x) == c + p.x * p.y - q.x * q.y;
  }

  /** The same identity for every edge at once, in the form the telescoping lemmas take. */
  lemma ShiftedTermTelescopes(m: Moment, dx: real, dy: real)
    requires IsFirstOrder(m)
    ensures Telescopes(Shifted(TermOf(m), dx, dy), TermOf(m), TermOf(Shoelace), PotentialOf(m, dx, dy), Drift(m, dx, dy))
  {
    forall p, q
      ensures Shifted(TermOf(m), dx, dy)(p, q)
           == TermOf(m)(p, q) + Drift(m, dx, dy) * TermOf(Shoelace)(p, q)
              + PotentialOf(m, dx, dy)(q) - PotentialOf(m, dx, dy)(p)
    {
      TermTranslate(m, p, q, dx, dy);
    }
  }

  /** Along an open path the translated sum differs by the drift and the end-point potentials. */
  lemma {:induction false} PathSumTranslate(m: Moment, r: seq<Point>, dx: real, dy: real)
    requires IsFirstOrder(m) && |r| > 0
    ensures EdgeSum(TermOf(m), Translate(r, dx, dy))
         == EdgeSum(TermOf(m), r) + Scale(Drift(m, dx, dy), EdgeSum(TermOf(Shoelace), r))
            + PotentialOf(m, dx, dy)(r[|r| - 1]) - PotentialOf(m, dx, dy)(r[0])
  {
    ShiftedTermTelescopes(m, dx, dy);
    EdgeSumTranslateTelescope(TermOf(m), TermOf(m), TermOf(Shoelace), PotentialOf(m, dx, dy), Drift(m, dx, dy), r, dx, dy);
  }

  /** On the closed ring the potentials cancel: only the drift remains. */
  lemma {:induction false} RingSumTranslate(m: Moment, pts: seq<Point>, dx: real, dy: real)
    requires IsFirstOrder(m) && |pts| > 0
    ensures EdgeSum(TermOf(m), Close(Translate(pts, dx, dy)))
         == EdgeSum(TermOf(m), Close(pts)) + Scale(Drift(m, dx, dy), EdgeSum(TermOf(Shoelace), Close(pts)))
  {
    CloseTranslate(pts, dx, dy);
    PathSumTranslate(m, Close(pts), dx, dy);
  }

  /** Moving every vertex by the same offset leaves the signed area unchanged. */
  lemma {:induction false} AreaTranslate(pts: seq<Point>, dx: real, dy: real)
    requires |pts| > 0
    ensures AreaOf(Translate(pts, dx, dy)) == AreaOf(pts)
  {
    RingSumTranslate(Shoelace, pts, dx, dy);
  }

  /**
   Adding drift = 3 d times the area sum s = 2 a to a first-moment sum adds d
   to the coordinate; a' is the unchanged area of the moved outline.
   */
  lemma QuotientShift(u': real, u: real, drift: real, d: real, s: real, a': real, a: real)
    requires a != 0.0 && a' == a && s == 2.0 * a
    requires drift == 3.0 * d && u' == u + Scale(drift, s)
    ensures u' / (6.0 * a') == u / (6.0 * a) + d
  {
  }

  /** One first-moment coordinate of the centroid moves by the offset d along its axis. */
  lemma {:induction false} CoordinateTranslate(m: Moment, pts: seq<Point>, dx: real, dy: real, d: real)
    requires IsFirstOrder(m) && Drift(m, dx, dy) == 3.0 * d
    requires |pts| > 0 && AreaOf(pts) != 0.0
    ensures AreaOf(Translate(pts, dx, dy)) == AreaOf(pts)
    ensures EdgeSum(TermOf(m), Close(Translate(pts, dx, dy))) / (6.0 * AreaOf(Translate(pts, dx, dy)))
         == EdgeSum(TermOf(m), Close(pts)) / (6.0 * AreaOf(pts)) + d
  {
    AreaTranslate(pts, dx, dy);
    RingSumTranslate(m, pts, dx, dy);
    QuotientShift(EdgeSum(TermOf(m), Close(Translate(pts, dx, dy))), EdgeSum(TermOf(m), Close(pts)), Drift(m, dx, dy), d,
                  EdgeSum(TermOf(Shoelace), Close(pts)), AreaOf(Translate(pts, dx, dy)), AreaOf(pts));
  }

  /** Moving every vertex by (dx, dy) moves the centroid by exactly (dx, dy). */
  lemma {:induction false} CentroidTranslate(pts: seq<Point>, dx: real, dy: real)
    requires |pts| > 0 && AreaOf(pts) != 0.0
    ensures AreaOf(Translate(pts, dx, dy)) != 0.0
    ensures CentroidOf(Translate(pts, dx, dy)) == Shift(CentroidOf(pts), dx, dy)
  {
    CoordinateTranslate(FirstX, pts, dx, dy, dx);
    CoordinateTranslate(FirstY, pts, dx, dy, dy);
  }
}
