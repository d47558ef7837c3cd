/** Planar geometry used by the ear-clipping triangulator: points, triangles,
    the two signed-area formulas and the tests built on them. Coordinates are
    exact reals. */
module Geom {

  /** A point of the plane. */
  datatype Vec2 = Vec2(x: real, y: real)

  /** Three corners. Instantiated with vertex ids (a "fake" triangle) or with
      points (a "real" triangle). */
  datatype Triangle<T> = Triangle(A: T, B: T, C: T)

  /** Independent reference: twice the signed area of (p, q, r) by the shoelace
      formula. Positive for a counter-clockwise turn. */
  function TwiceSignedArea(p: Vec2, q: Vec2, r: Vec2): real {
    p.x * q.y - q.x * p.y + q.x * r.y - r.x * q.y + r.x * p.y - p.x * r.y
  }

  /** Orientation of (p1, p2, p3) measured from p3. */
  function Sign(p1: Vec2, p2: Vec2, p3: Vec2): real {
    (p1.x - p3.x) * (p2.y - p3.y) - (p2.x - p3.x) * (p1.y - p3.y)
  }

  /** Inclusive containment: the three half-plane tests never disagree in sign. */
  predicate PointInTriangle(tri: Triangle<Vec2>, pt: Vec2) {
    var d1 := Sign(pt, tri.A, tri.B);
    var d2 := Sign(pt, tri.B, tri.C);
    var d3 := Sign(pt, tri.C, tri.A);
    var hasNeg := d1 < 0.0 || d2 < 0.0 || d3 < 0.0;
    var hasPos := d1 > 0.0 || d2 > 0.0 || d3 > 0.0;
    !(hasNeg && hasPos)
  }

  /** Cross product of the edges AB and BC. */
  function Det(a: Vec2, b: Vec2, c: Vec2): real {
    var ab := Vec2(b.x - a.x, b.y - a.y);
    var bc := Vec2(c.x - b.x, c.y - b.y);
    ab.x * bc.y - bc.x * ab.y
  }

  /** The triangle overload of Det. */
  function TriangleDet(tri: Triangle<Vec2>): real {
    Det(tri.A, tri.B, tri.C)
  }

  predicate IsConvex(tri: Triangle<Vec2>) {
    TriangleDet(tri) > 0.0
  }

  predicate IsReflex(tri: Triangle<Vec2>) {
    TriangleDet(tri) < 0.0
  }

  /** Both formulas compute twice the signed area of the same ordered triple. */
  lemma SignAndDetAreTwiceTheArea(p1: Vec2, p2: Vec2, p3: Vec2)
    ensures Sign(p1, p2, p3) == TwiceSignedArea(p1, p2, p3)
    ensures Det(p1, p2, p3) == TwiceSignedArea(p1, p2, p3)
    ensures Sign(p1, p2, p3) == Det(p1, p2, p3)
  {
  }

  /** Det does not depend on which corner the triangle starts from, and flips
      its sign when the triangle is traversed the other way. */
  lemma DetRotationAndReversal(a: Vec2, b: Vec2, c: Vec2)
    ensures Det(b, c, a) == Det(a, b, c)
    ensures Det(c, a, b) == Det(a, b, c)
    ensures Det(c, b, a) == -Det(a, b, c)
  {
    SignAndDetAreTwiceTheArea(a, b, c);
    SignAndDetAreTwiceTheArea(b, c, a);
    SignAndDetAreTwiceTheArea(c, a, b);
    SignAndDetAreTwiceTheArea(c, b, a);
  }

  /** A triangle with two coinciding corners has no area. */
  lemma DetOfCoincidentCorners(a: Vec2, b: Vec2, c: Vec2)
    requires a == b || b == c || a == c
    ensures Det(a, b, c) == 0.0
  {
  }

  /** A triangle is never both convex and reflex, and is neither exactly when
      its corners are collinear (zero area). */
  lemma ConvexReflexExclusive(tri: Triangle<Vec2>)
    ensures !(IsConvex(tri) && IsReflex(tri))
    ensures !IsConvex(tri) && !IsReflex(tri) <==> TriangleDet(tri) == 0.0
  {
  }

  /** Reversing the corner order swaps convex and reflex. */
  lemma ReversalSwapsConvexAndReflex(tri: Triangle<Vec2>)
    ensures IsConvex(tri) <==> IsReflex(Triangle(tri.C, tri.B, tri.A))
    ensures IsReflex(tri) <==> IsConvex(Triangle(tri.C, tri.B, tri.A))
  {
    DetRotationAndReversal(tri.A, tri.B, tri.C);
  }

  /** Containment holds exactly when the three half-plane values are all
      non-negative or all non-positive. */
  lemma PointInTriangleBySigns(tri: Triangle<Vec2>, pt: Vec2)
    ensures PointInTriangle(tri, pt) <==>
      var d1, d2, d3 := Sign(pt, tri.A, tri.B), Sign(pt, tri.B, tri.C), Sign(pt, tri.C, tri.A);
      (d1 >= 0.0 && d2 >= 0.0 && d3 >= 0.0) || (d1 <= 0.0 && d2 <= 0.0 && d3 <= 0.0)
  {
  }

  /** The boundary counts as inside: every corner is contained. */
  lemma CornersAreInside(tri: Triangle<Vec2>)
    ensures PointInTriangle(tri, tri.A)
    ensures PointInTriangle(tri, tri.B)
    ensures PointInTriangle(tri, tri.C)
  {
  }
}
