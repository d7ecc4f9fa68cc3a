/**
 The six per-edge terms that the loops of cm_moi.py accumulate, each a
 polynomial in the two end points times the cross term of the edge.
 */
module Terms {
  import opened Ring
  import opened EdgeSums

  /** Which accumulator a loop builds. */
  datatype Moment =
    | Shoelace   // s in area:       twice the signed area
    | FirstX     // sx in centroid:  six times the signed first moment in x
    | FirstY     // sy in centroid:  six times the signed first moment in y
    | SecondXX   // sxx in inertia:  twelve times the second moment about the x axis
    | SecondYY   // syy in inertia:  twelve times the second moment about the y axis
    | ProductXY  // sxy in inertia:  twenty-four times the product of inertia

  /** The cross term x[i]*y[i+1] - x[i+1]*y[i] of the edge from p to q. */
  function Cross(p: Point, q: Point): real
  {
    p.x * q.y - q.x * p.y
  }

  /** What the loop adds to the accumulator of m for the edge from p to q. */
  function Term(m: Moment, p: Point, q: Point): real
  {
    match m
    case Shoelace => Cross(p, q)
    case FirstX => (p.x + q.x) * Cross(p, q)
    case FirstY => (p.y + q.y) * Cross(p, q)
    case SecondXX => (p.y * p.y + p.y * q.y + q.y * q.y) * Cross(p, q)
    case SecondYY => (p.x * p.x + p.x * q.x + q.x * q.x) * Cross(p, q)
    case ProductXY => (p.x * q.y + 2.0 * p.x * p.y + 2.0 * q.x * q.y + q.x * p.y) * Cross(p, q)
  }

  /** The term of m as a value, to be summed over a ring. */
  function TermOf(m: Moment): EdgeTerm
  {
    (p, q) => Term(m, p, q)
  }

  /** Every term changes sign when the edge is walked the other way. */
  lemma TermAntisymmetric(m: Moment)
    ensures Antisymmetric(TermOf(m))
  {
    forall p, q
      ensures Term(m, q, p) == -Term(m, p, q)
    {
      assert Cross(q, p) == -Cross(p, q);
    }
  }

  /** So a zero-length edge, such as the one closing an already closed ring, adds nothing. */
  lemma TermZeroOnLoops(m: Moment)
    ensures ZeroOnLoops(TermOf(m))
  {
    TermAntisymmetric(m);
    AntisymmetricZeroOnLoops(TermOf(m));
  }
}
