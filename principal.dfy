/**
 The principal moments of cm_moi.py: the largest and smallest second moment
 over all axis directions through the reference point, in closed form from
 Ixx, Iyy and Ixy. The square root is not computed here: the caller supplies
 r, the non-negative root of diff^2 + Ixy^2, and the contract of Principal
 asks only that r be that root.
 */
module PrincipalMoments {

  /** The two principal moments, the larger first. */
  datatype Axes = Axes(i1: real, i2: real)

  /** Half the difference Ixx - Iyy, with its sign. */
  function HalfDiff(ixx: real, iyy: real): real
  {
    (ixx - iyy) / 2.0
  }

  /** True when r is the square root sqrt(diff^2 + Ixy^2) that principal takes. */
  predicate IsRadius(ixx: real, iyy: real, ixy: real, r: real)
  {
    r >= 0.0 && r * r == HalfDiff(ixx, iyy) * HalfDiff(ixx, iyy) + ixy * ixy
  }

  /**
   The principal moments: the mean of Ixx and Iyy plus and minus the radius.
   The larger comes first, and together they keep the trace Ixx + Iyy.
   */
  function Principal(ixx: real, iyy: real, ixy: real, r: real): (ax: Axes)
    requires IsRadius(ixx, iyy, ixy, r)
    ensures ax.i1 >= ax.i2
    ensures ax.i1 + ax.i2 == ixx + iyy
  {
    var avg := (ixx + iyy) / 2.0;
    Axes(avg + r, avg - r)
  }

  /** The product of two positive reals is positive. */
  lemma ProductPositive(u: real, v: real)
    requires u > 0.0 && v > 0.0
    ensures u * v > 0.0
  {
  }

  /** Squaring is strictly monotonic on the non-negative reals. */
  lemma SquareBelow(a: real, b: real)
    requires 0.0 <= a < b
    ensures a * a < b * b
  {
    assert b * b - a * a == (b - a) * (b + a);
    ProductPositive(b - a, b + a);
  }

  /** A non-negative square root is unique, so no choice of r changes the result. */
  lemma RootUnique(r: real, r': real)
    requires r >= 0.0 && r' >= 0.0 && r * r == r' * r'
    ensures r == r'
  {
    if r < r' {
      SquareBelow(r, r');
    }
    if r' < r {
      SquareBelow(r', r);
    }
  }

  /** Two reals with the same square are equal up to sign. */
  lemma SquareRoots(u: real, r: real)
    requires r >= 0.0 && u * u == r * r
    ensures u == r || u == -r
  {
    if u >= 0.0 {
      RootUnique(u, r);
    } else {
      assert (-u) * (-u) == u * u;
      RootUnique(-u, r);
    }
  }

  /**
   k is a principal moment exactly when det [[Ixx - k, Ixy], [Ixy, Iyy - k]] = 0:
   the two results are the two roots of the characteristic equation of the
   inertia tensor, and there is no other root.
   */
  lemma {:induction false} PrincipalCharacteristic(ixx: real, iyy: real, ixy: real, r: real, k: real)
    requires IsRadius(ixx, iyy, ixy, r)
    ensures (ixx - k) * (iyy - k) == ixy * ixy
        <==> k == Principal(ixx, iyy, ixy, r).i1 || k == Principal(ixx, iyy, ixy, r).i2
  {
    var avg, d := (ixx + iyy) / 2.0, HalfDiff(ixx, iyy);
    var u := k - avg;
    assert ixx - k == d - u && iyy - k == -d - u;
    assert (d - u) * (-d - u) == u * u - d * d;
    if (ixx - k) * (iyy - k) == ixy * ixy {
      assert u * u == r * r;
      SquareRoots(u, r);
    }
  }

  /** The radius is at least |diff|, so I1 is at least both Ixx and Iyy and I2 at most both. */
  lemma {:induction false} PrincipalBounds(ixx: real, iyy: real, ixy: real, r: real)
    requires IsRadius(ixx, iyy, ixy, r)
    ensures Principal(ixx, iyy, ixy, r).i1 >= ixx && Principal(ixx, iyy, ixy, r).i1 >= iyy
    ensures Principal(ixx, iyy, ixy, r).i2 <= ixx && Principal(ixx, iyy, ixy, r).i2 <= iyy
  {
    var d := HalfDiff(ixx, iyy);
    if r < d {
      SquareBelow(r, d);
    }
    if r < -d {
      SquareBelow(r, -d);
    }
  }

  /** With Ixx = Iyy and Ixy = 0 the radius is zero. */
  lemma RadiusOfIsotropic(ixx: real, iyy: real, ixy: real, r: real)
    requires IsRadius(ixx, iyy, ixy, r) && ixx == iyy && ixy == 0.0
    ensures r == 0.0
  {
    var h := HalfDiff(ixx, iyy);
    assert h == 0.0;
    if r > 0.0 {
      SquareBelow(h, r);
    }
  }

  /** A zero radius forces Ixx = Iyy and Ixy = 0: a sum of two squares vanishes only when both do. */
  lemma IsotropicOfRadius(ixx: real, iyy: real, ixy: real, r: real)
    requires IsRadius(ixx, iyy, ixy, r) && r == 0.0
    ensures ixx == iyy && ixy == 0.0
  {
    var h := HalfDiff(ixx, iyy);
    if h != 0.0 || ixy != 0.0 {
      var h', c := if h < 0.0 then -h else h, if ixy < 0.0 then -ixy else ixy;
      assert h' * h' == h * h && c * c == ixy * ixy;
      if h' > 0.0 {
        SquareBelow(0.0, h');
      } else {
        SquareBelow(0.0, c);
      }
      assert false;
    }
  }

  /**
   When Ixx = Iyy and Ixy = 0 the two principal moments coincide and equal
   Ixx; conversely, coinciding principal moments force Ixx = Iyy and Ixy = 0.
   */
  lemma {:induction false} PrincipalIsotropic(ixx: real, iyy: real, ixy: real, r: real)
    requires IsRadius(ixx, iyy, ixy, r)
    ensures ixx == iyy && ixy == 0.0 ==> Principal(ixx, iyy, ixy, r).i1 == ixx == Principal(ixx, iyy, ixy, r).i2
    ensures Principal(ixx, iyy, ixy, r).i1 == Principal(ixx, iyy, ixy, r).i2 ==> ixx == iyy && ixy == 0.0
  {
    if ixx == iyy && ixy == 0.0 {
      RadiusOfIsotropic(ixx, iyy, ixy, r);
    }
    if Principal(ixx, iyy, ixy, r).i1 == Principal(ixx, iyy, ixy, r).i2 {
      IsotropicOfRadius(ixx, iyy, ixy, r);
    }
  }

  /** The determinant Ixx * Iyy - Ixy^2 of the tensor is the product of the principal moments. */
  lemma {:induction false} PrincipalDeterminant(ixx: real, iyy: real, ixy: real, r: real)
    requires IsRadius(ixx, iyy, ixy, r)
    ensures Principal(ixx, iyy, ixy, r).i1 * Principal(ixx, iyy, ixy, r).i2 == ixx * iyy - ixy * ixy
  {
    var avg, d := (ixx + iyy) / 2.0, HalfDiff(ixx, iyy);
    assert (avg + r) * (avg - r) == avg * avg - r * r;
    assert avg * avg - d * d == ixx * iyy;
  }
}
