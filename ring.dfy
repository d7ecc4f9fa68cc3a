/**
 The vertex ring shared by the moment computations of cm_moi.py: points of
 the plane, the step that closes an outline by repeating its first vertex,
 and the coordinate projections the computations index into.
 */
module Ring {

  /** A vertex (x, y) of a cross-section outline; coordinates are exact reals. */
  datatype Point = Point(x: real, y: real)

  /** True when the outline already ends where it starts. */
  predicate IsClosed(pts: seq<Point>)
    requires |pts| > 0
  {
    pts[0] == pts[|pts| - 1]
  }

  /**
   The ring-closing step of area, centroid and inertia: the first vertex is
   appended exactly when it differs from the last one. A new sequence is
   built; the caller's sequence is a value and is not changed.
   */
  function Close(pts: seq<Point>): (ring: seq<Point>)
    requires |pts| > 0
    ensures |ring| > 0 && ring[0] == ring[|ring| - 1]
    ensures |ring| == if IsClosed(pts) then |pts| else |pts| + 1
    ensures ring[..|pts|] == pts
    ensures !IsClosed(pts) ==> ring[|pts|] == pts[0]
  {
    if !IsClosed(pts) then pts + pts[..1] else pts
  }

  /** Closing an already closed outline returns it unchanged: nothing is doubled. */
  lemma CloseOfClosed(pts: seq<Point>)
    requires |pts| > 0 && IsClosed(pts)
    ensures Close(pts) == pts
  {
  }

  /** Closing is idempotent, so a stage that re-closes a ring it was given adds nothing. */
  lemma CloseIdempotent(pts: seq<Point>)
    requires |pts| > 0
    ensures Close(Close(pts)) == Close(pts)
  {
    CloseOfClosed(Close(pts));
  }

  /** The x coordinates of the vertices, in order. */
  function Xs(pts: seq<Point>): (xs: seq<real>)
    ensures |xs| == |pts|
    ensures forall i {:trigger xs[i]} :: 0 <= i < |pts| ==> xs[i] == pts[i].x
  {
    seq(|pts|, i requires 0 <= i < |pts| => pts[i].x)
  }

  /** The y coordinates of the vertices, in order. */
  function Ys(pts: seq<Point>): (ys: seq<real>)
    ensures |ys| == |pts|
    ensures forall i {:trigger ys[i]} :: 0 <= i < |pts| ==> ys[i] == pts[i].y
  {
    seq(|pts|, i requires 0 <= i < |pts| => pts[i].y)
  }

  /** The outline traversed in the opposite direction. */
  function Reverse(pts: seq<Point>): (r: seq<Point>)
    ensures |r| == |pts|
    ensures forall i {:trigger r[i]} :: 0 <= i < |pts| ==> r[i] == pts[|pts| - 1 - i]
  {
    seq(|pts|, i requires 0 <= i < |pts| => pts[|pts| - 1 - i])
  }

  /** A vertex moved by (dx, dy). */
  function Shift(p: Point, dx: real, dy: real): Point
  {
    Point(p.x + dx, p.y + dy)
  }

  /** Every vertex moved by the same (dx, dy). */
  function Translate(pts: seq<Point>, dx: real, dy: real): (r: seq<Point>)
    ensures |r| == |pts|
    ensures forall i {:trigger r[i]} :: 0 <= i < |pts| ==> r[i] == Shift(pts[i], dx, dy)
  {
    seq(|pts|, i requires 0 <= i < |pts| => Shift(pts[i], dx, dy))
  }

  /** Moving the vertices and closing the ring commute: translation keeps first and last apart or together. */
  lemma {:induction false} CloseTranslate(pts: seq<Point>, dx: real, dy: real)
    requires |pts| > 0
    ensures Close(Translate(pts, dx, dy)) == Translate(Close(pts), dx, dy)
  {
    var n := |pts|;
    var t := Translate(pts, dx, dy);
    assert t[0] == Shift(pts[0], dx, dy) && t[n - 1] == Shift(pts[n - 1], dx, dy);
    if IsClosed(pts) {
      assert IsClosed(t);
    } else {
      assert pts[0].x != pts[n - 1].x || pts[0].y != pts[n - 1].y;
      assert !IsClosed(t);
      assert Translate(pts + [pts[0]], dx, dy) == t + [t[0]];
    }
  }
}
