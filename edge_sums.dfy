/**
 Sums over the consecutive vertex pairs of a ring. Every accumulator loop of
 cm_moi.py has the shape `for i in range(len(pts) - 1): acc += f(pts[i], pts[i+1])`
 for some per-edge term f; the lemmas here hold for any such f, given the
 property of f they name (vanishing on a zero-length edge, antisymmetry, a
 telescoping identity).
 */
module EdgeSums {
  import opened Ring

  /** A per-edge term: what one iteration adds for the edge from p to q. */
  type EdgeTerm = (Point, Point) -> real

  /**
   The sum of f(r[i], r[i+1]) for i in [0, |r| - 1): the value the loop
   leaves in its accumulator after running over r.
   */
  function EdgeSum(f: EdgeTerm, r: seq<Point>): real
    decreases |r|
  {
    if |r| < 2 then 0.0 else EdgeSum(f, r[..|r| - 1]) + f(r[|r| - 2], r[|r| - 1])
  }

  /** A zero-length edge contributes nothing. */
  ghost predicate ZeroOnLoops(f: EdgeTerm)
  {
    forall p {:trigger f(p, p)} :: f(p, p) == 0.0
  }

  /** Walking an edge the other way changes the sign of its term. */
  ghost predicate Antisymmetric(f: EdgeTerm)
  {
    forall p, q {:trigger f(p, q)} :: f(q, p) == -f(p, q)
  }

  lemma AntisymmetricZeroOnLoops(f: EdgeTerm)
    requires Antisymmetric(f)
    ensures ZeroOnLoops(f)
  {
    forall p
      ensures f(p, p) == 0.0
    {
      assert f(p, p) == -f(p, p);
    }
  }

  /** One more loop iteration adds the term of edge i to the prefix sum. */
  lemma {:induction false} EdgeSumStep(f: EdgeTerm, r: seq<Point>, i: nat)
    requires i + 1 < |r|
    ensures EdgeSum(f, r[..i + 2]) == EdgeSum(f, r[..i + 1]) + f(r[i], r[i + 1])
  {
    assert r[..i + 2][..i + 1] == r[..i + 1];
  }

  /** Appending a vertex adds the edge from the old last vertex to it. */
  lemma {:induction false} EdgeSumSnoc(f: EdgeTerm, r: seq<Point>, p: Point)
    requires |r| > 0
    ensures EdgeSum(f, r + [p]) == EdgeSum(f, r) + f(r[|r| - 1], p)
  {
    assert (r + [p])[..|r|] == r;
  }

  /** Prepending a vertex adds the edge from it to the old first vertex. */
  lemma {:induction false} EdgeSumCons(f: EdgeTerm, p: Point, r: seq<Point>)
    requires |r| > 0
    ensures EdgeSum(f, [p] + r) == f(p, r[0]) + EdgeSum(f, r)
  {
    if |r| > 1 {
      var front := r[..|r| - 1];
      EdgeSumCons(f, p, front);
      assert ([p] + r)[..|r|] == [p] + front;
    }
  }

  /** The sum over the closed ring is the sum along the outline plus its closing edge. */
  lemma {:induction false} EdgeSumClosed(f: EdgeTerm, pts: seq<Point>)
    requires |pts| > 0 && ZeroOnLoops(f)
    ensures EdgeSum(f, Close(pts)) == EdgeSum(f, pts) + f(pts[|pts| - 1], pts[0])
  {
    if IsClosed(pts) {
      assert f(pts[0], pts[0]) == 0.0;
    } else {
      EdgeSumSnoc(f, pts, pts[0]);
      assert Close(pts) == pts + [pts[0]];
    }
  }

  /**
   Reference definition of the same sums with wrap-around indices, the ring
   read as pts[i % n] without building a closed copy: the sum of
   f(pts[i], pts[(i + 1) % n]) for i in [0, k).
   */
  function CyclicPrefix(f: EdgeTerm, pts: seq<Point>, k: nat): real
    requires k <= |pts|
  {
    if k == 0 then 0.0
    else CyclicPrefix(f, pts, k - 1) + f(pts[k - 1], pts[k % |pts|])
  }

  /** The wrap-around sum over all n edges of the outline. */
  function CyclicSum(f: EdgeTerm, pts: seq<Point>): real
  {
    CyclicPrefix(f, pts, |pts|)
  }

  /** An index below n is its own remainder modulo n. */
  lemma ModBelow(k: nat, n: nat)
    requires k < n
    ensures k % n == k
  {
  }

  /** Before the wrap-around edge, the cyclic prefix is the plain prefix sum. */
  lemma {:induction false} CyclicPrefixIsEdgeSum(f: EdgeTerm, pts: seq<Point>, k: nat)
    requires k < |pts|
    ensures CyclicPrefix(f, pts, k) == EdgeSum(f, pts[..k + 1])
  {
    if k > 0 {
      CyclicPrefixIsEdgeSum(f, pts, k - 1);
      EdgeSumStep(f, pts, k - 1);
      ModBelow(k, |pts|);
    }
  }

  /** Closing the ring and summing its edges equals the wrap-around sum, closed input or not. */
  lemma {:induction false} EdgeSumCyclic(f: EdgeTerm, pts: seq<Point>)
    requires |pts| > 0 && ZeroOnLoops(f)
    ensures EdgeSum(f, Close(pts)) == CyclicSum(f, pts)
  {
    var n := |pts|;
    CyclicPrefixIsEdgeSum(f, pts, n - 1);
    assert pts[..n] == pts;
    EdgeSumClosed(f, pts);
  }

  /** Walking a path backwards negates the sum of an antisymmetric term. */
  lemma {:induction false} EdgeSumReverse(f: EdgeTerm, r: seq<Point>)
    requires Antisymmetric(f)
    ensures EdgeSum(f, Reverse(r)) == -EdgeSum(f, r)
  {
    if |r| >= 2 {
      var front := r[..|r| - 1];
      var last := r[|r| - 1];
      assert Reverse(r) == [last] + Reverse(front);
      EdgeSumReverse(f, front);
      EdgeSumCons(f, last, Reverse(front));
      assert f(last, front[|front| - 1]) == -f(front[|front| - 1], last);
    } else {
      assert |Reverse(r)| < 2;
    }
  }

  /**
   An outline of one or two vertices closes into a ring whose edges cancel in
   pairs: an antisymmetric term sums to zero over it.
   */
  lemma {:induction false} EdgeSumDegenerate(f: EdgeTerm, pts: seq<Point>)
    requires 0 < |pts| < 3 && Antisymmetric(f)
    ensures EdgeSum(f, Close(pts)) == 0.0
  {
    AntisymmetricZeroOnLoops(f);
    EdgeSumClosed(f, pts);
    if |pts| == 2 {
      EdgeSumSnoc(f, [pts[0]], pts[1]);
      assert [pts[0]] + [pts[1]] == pts;
      assert f(pts[1], pts[0]) == -f(pts[0], pts[1]);
    } else {
      assert f(pts[0], pts[0]) == 0.0;
    }
  }

  /** Repeating the first vertex at the end of the outline does not change the sum over its closed ring. */
  lemma {:induction false} EdgeSumCloseAppend(f: EdgeTerm, pts: seq<Point>)
    requires |pts| > 0 && ZeroOnLoops(f)
    ensures EdgeSum(f, Close(pts + [pts[0]])) == EdgeSum(f, Close(pts))
  {
    CloseOfClosed(pts + [pts[0]]);
    EdgeSumSnoc(f, pts, pts[0]);
    EdgeSumClosed(f, pts);
  }

  /** Reversing the outline negates the sum of an antisymmetric term over its closed ring. */
  lemma {:induction false} EdgeSumCloseReverse(f: EdgeTerm, pts: seq<Point>)
    requires |pts| > 0 && Antisymmetric(f)
    ensures EdgeSum(f, Close(Reverse(pts))) == -EdgeSum(f, Close(pts))
  {
    var n := |pts|;
    AntisymmetricZeroOnLoops(f);
    EdgeSumClosed(f, Reverse(pts));
    EdgeSumReverse(f, pts);
    assert f(pts[0], pts[n - 1]) == -f(pts[n - 1], pts[0]);
    EdgeSumClosed(f, pts);
  }

  /** The term f read on points moved by (dx, dy). */
  function Shifted(f: EdgeTerm, dx: real, dy: real): EdgeTerm
  {
    (p, q) => f(Shift(p, dx, dy), Shift(q, dx, dy))
  }

  /** Summing f over a translated path is summing the shifted term over the original. */
  lemma {:induction false} EdgeSumTranslate(f: EdgeTerm, r: seq<Point>, dx: real, dy: real)
    ensures EdgeSum(f, Translate(r, dx, dy)) == EdgeSum(Shifted(f, dx, dy), r)
  {
    var n := |r|;
    if n >= 2 {
      EdgeSumTranslate(f, r[..n - 1], dx, dy);
      assert Translate(r, dx, dy)[..n - 1] == Translate(r[..n - 1], dx, dy);
    }
  }

  /**
   d times s. Statements below that multiply a sum by a factor go through
   this function, so that equal factors and equal sums give the same product
   wherever the lemma is used.
   */
  function Scale(d: real, s: real): real
  {
    d * s
  }

  /**
   f differs from g by d times h plus the difference of a vertex potential
   between the end and the start of the edge.
   */
  ghost predicate Telescopes(f: EdgeTerm, g: EdgeTerm, h: EdgeTerm, pot: Point -> real, d: real)
  {
    forall p, q {:trigger f(p, q)} :: f(p, q) == g(p, q) + d * h(p, q) + pot(q) - pot(p)
  }

  /** Along a path the potential differences telescope to last minus first. */
  lemma {:induction false} EdgeSumTelescope(f: EdgeTerm, g: EdgeTerm, h: EdgeTerm, pot: Point -> real, d: real,
                                            r: seq<Point>)
    requires |r| > 0 && Telescopes(f, g, h, pot, d)
    ensures EdgeSum(f, r) == EdgeSum(g, r) + Scale(d, EdgeSum(h, r)) + pot(r[|r| - 1]) - pot(r[0])
  {
    var n := |r|;
    if n >= 2 {
      EdgeSumTelescope(f, g, h, pot, d, r[..n - 1]);
      var c := h(r[n - 2], r[n - 1]);
      assert f(r[n - 2], r[n - 1]) == g(r[n - 2], r[n - 1]) + d * c + pot(r[n - 1]) - pot(r[n - 2]);
      assert Scale(d, EdgeSum(h, r)) == Scale(d, EdgeSum(h, r[..n - 1])) + d * c;
    }
  }

  /** Translating a path changes the sum of f as the telescoping identity of its shifted term says. */
  lemma {:induction false} EdgeSumTranslateTelescope(f: EdgeTerm, g: EdgeTerm, h: EdgeTerm, pot: Point -> real, d: real,
                                                     r: seq<Point>, dx: real, dy: real)
    requires |r| > 0 && Telescopes(Shifted(f, dx, dy), g, h, pot, d)
    ensures EdgeSum(f, Translate(r, dx, dy)) == EdgeSum(g, r) + Scale(d, EdgeSum(h, r)) + pot(r[|r| - 1]) - pot(r[0])
  {
    EdgeSumTranslate(f, r, dx, dy);
    EdgeSumTelescope(Shifted(f, dx, dy), g, h, pot, d, r);
  }
}
