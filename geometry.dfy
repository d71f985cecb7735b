/** ParkingLotAnnotTool/utils/geometry.py: the point and triangle records and the
    convexity test applied to every dragged quadrilateral. */
module Geometry {

  datatype Vector2d = Vector2d(x: real, y: real)

  datatype Triangle2d = Triangle2d(x1: real, y1: real, x2: real, y2: real, x3: real, y3: real)

  /** `cross_product_length`: the cross product (a - b) x (c - b) of the two edge
      vectors that leave the middle vertex b. */
  function CrossProductLength(xa: real, ya: real, xb: real, yb: real, xc: real, yc: real): real
  {
    (xa - xb) * (yc - yb) - (ya - yb) * (xc - xb)
  }

  /** Exchanging the outer vertices negates the cross product. */
  lemma CrossProductAntisymmetric(xa: real, ya: real, xb: real, yb: real, xc: real, yc: real)
    ensures CrossProductLength(xc, yc, xb, yb, xa, ya) == -CrossProductLength(xa, ya, xb, yb, xc, yc)
  {
  }

  /** Moving all three points by the same offset keeps the cross product. */
  lemma CrossProductTranslation(xa: real, ya: real, xb: real, yb: real, xc: real, yc: real, dx: real, dy: real)
    ensures CrossProductLength(xa + dx, ya + dy, xb + dx, yb + dy, xc + dx, yc + dy)
         == CrossProductLength(xa, ya, xb, yb, xc, yc)
  {
  }

  /** The successor of vertex i on the closed polygon of n vertices, `(i + 1) % n`. */
  function Next(i: nat, n: nat): (j: nat)
    requires i < n
    ensures j < n && j == (i + 1) % n
  {
    if i + 1 < n then i + 1 else 0
  }

  /** The predecessor of vertex i on the closed polygon of n vertices. */
  function Prev(i: nat, n: nat): (j: nat)
    requires i < n
    ensures j < n && Next(j, n) == i
  {
    if i == 0 then n - 1 else i - 1
  }

  /** The cross product the loop computes at step a: vertices a, (a+1) % n, (a+2) % n,
      taken at the middle one. */
  function CrossAt(xs: seq<real>, ys: seq<real>, a: nat): real
    requires |ys| == |xs| && a < |xs|
  {
    var n := |xs|;
    var b := Next(a, n);
    var c := Next(b, n);
    CrossProductLength(xs[a], ys[a], xs[b], ys[b], xs[c], ys[c])
  }

  predicate HasNegativeTurn(xs: seq<real>, ys: seq<real>)
    requires |ys| == |xs|
  {
    exists a :: 0 <= a < |xs| && CrossAt(xs, ys, a) < 0.0
  }

  predicate HasPositiveTurn(xs: seq<real>, ys: seq<real>)
    requires |ys| == |xs|
  {
    exists a :: 0 <= a < |xs| && CrossAt(xs, ys, a) > 0.0
  }

  /** What `is_polygon_convex` decides: the cyclic cross products do not include both a
      strictly negative and a strictly positive one. Zero products count for neither. */
  predicate Convex(xs: seq<real>, ys: seq<real>)
    requires |ys| == |xs|
  {
    !(HasNegativeTurn(xs, ys) && HasPositiveTurn(xs, ys))
  }

  /** `is_polygon_convex(xs, ys)`: one pass over all cyclic triples, two flags, and an
      early False once both signs have been seen. */
  method IsPolygonConvex(xs: seq<real>, ys: seq<real>) returns (r: bool)
    requires |ys| == |xs|
    ensures r == Convex(xs, ys)
  {
    var gotNegative := false;
    var gotPositive := false;
    var numPoints := |xs|;
    for a := 0 to numPoints
      invariant gotNegative <==> exists k :: 0 <= k < a && CrossAt(xs, ys, k) < 0.0
      invariant gotPositive <==> exists k :: 0 <= k < a && CrossAt(xs, ys, k) > 0.0
      invariant !(gotNegative && gotPositive)
    {
      var b := (a + 1) % numPoints;
      var c := (b + 1) % numPoints;
      var crossProduct := CrossProductLength(xs[a], ys[a], xs[b], ys[b], xs[c], ys[c]);
      assert crossProduct == CrossAt(xs, ys, a);
      if crossProduct < 0.0 {
        gotNegative := true;
      }
      if crossProduct > 0.0 {
        gotPositive := true;
      }
      if gotNegative && gotPositive {
        return false;
      }
    }
    return true;
  }

  // ---------------------------------------------------------------------------
  // Vertex order does not matter

  /** The vertex list started at position k instead of 0. */
  function Rotate(s: seq<real>, k: nat): (r: seq<real>)
    requires k <= |s|
    ensures |r| == |s|
  {
    s[k..] + s[..k]
  }

  function Reverse(s: seq<real>): (r: seq<real>)
    ensures |r| == |s|
    ensures forall i :: 0 <= i < |s| ==> r[i] == s[|s| - 1 - i]
  {
    if |s| == 0 then [] else Reverse(s[1..]) + [s[0]]
  }

  /** Position in s of the vertex at position i of Rotate(s, k). */
  function Shift(i: nat, k: nat, n: nat): (j: nat)
    requires i < n && k <= n
    ensures j < n
  {
    if i + k < n then i + k else i + k - n
  }

  lemma RotateAt(s: seq<real>, k: nat, i: nat)
    requires k <= |s| && i < |s|
    ensures Rotate(s, k)[i] == s[Shift(i, k, |s|)]
  {
  }

  lemma CrossAtRotate(xs: seq<real>, ys: seq<real>, k: nat, a: nat)
    requires |ys| == |xs| && k <= |xs| && a < |xs|
    ensures CrossAt(Rotate(xs, k), Rotate(ys, k), a) == CrossAt(xs, ys, Shift(a, k, |xs|))
  {
    var n := |xs|;
    var b := Next(a, n);
    var c := Next(b, n);
    assert Next(Shift(a, k, n), n) == Shift(b, k, n);
    assert Next(Shift(b, k, n), n) == Shift(c, k, n);
    RotateAt(xs, k, a); RotateAt(xs, k, b); RotateAt(xs, k, c);
    RotateAt(ys, k, a); RotateAt(ys, k, b); RotateAt(ys, k, c);
  }

  /** The convexity verdict does not depend on which vertex the list starts with. */
  lemma ConvexRotationInvariant(xs: seq<real>, ys: seq<real>, k: nat)
    requires |ys| == |xs| && k <= |xs|
    ensures Convex(Rotate(xs, k), Rotate(ys, k)) == Convex(xs, ys)
  {
    var n := |xs|;
    var rx, ry := Rotate(xs, k), Rotate(ys, k);
    // every step of the rotated walk is a step of the original walk ...
    forall a | 0 <= a < n
      ensures CrossAt(rx, ry, a) == CrossAt(xs, ys, Shift(a, k, n))
    {
      CrossAtRotate(xs, ys, k, a);
    }
    // ... and every step of the original walk appears in the rotated one
    forall j | 0 <= j < n
      ensures exists a :: 0 <= a < n && CrossAt(rx, ry, a) == CrossAt(xs, ys, j)
    {
      var a := if j >= k then j - k else j + n - k;
      assert Shift(a, k, n) == j;
      CrossAtRotate(xs, ys, k, a);
    }
    assert HasNegativeTurn(rx, ry) == HasNegativeTurn(xs, ys);
    assert HasPositiveTurn(rx, ry) == HasPositiveTurn(xs, ys);
  }

  lemma CrossAtReverse(xs: seq<real>, ys: seq<real>, a: nat)
    requires |ys| == |xs| && a < |xs|
    ensures var n := |xs|;
      CrossAt(Reverse(xs), Reverse(ys), a) == -CrossAt(xs, ys, Prev(Prev(n - 1 - a, n), n))
  {
    var n := |xs|;
    var rx, ry := Reverse(xs), Reverse(ys);
    var m := n - 1 - a;
    var j := Prev(Prev(m, n), n);
    var b := Next(a, n);
    var c := Next(b, n);
    assert n - 1 - b == Prev(m, n);
    assert n - 1 - c == Prev(Prev(m, n), n);
    assert Next(j, n) == Prev(m, n);
    assert Next(Next(j, n), n) == m;
    CrossProductAntisymmetric(xs[j], ys[j], xs[Next(j, n)], ys[Next(j, n)], xs[m], ys[m]);
  }

  /** The convexity verdict does not depend on the winding direction: reversing the
      vertex list negates every cross product. */
  lemma ConvexReversalInvariant(xs: seq<real>, ys: seq<real>)
    requires |ys| == |xs|
    ensures Convex(Reverse(xs), Reverse(ys)) == Convex(xs, ys)
  {
    var n := |xs|;
    var rx, ry := Reverse(xs), Reverse(ys);
    forall a | 0 <= a < n
      ensures CrossAt(rx, ry, a) == -CrossAt(xs, ys, Prev(Prev(n - 1 - a, n), n))
    {
      CrossAtReverse(xs, ys, a);
    }
    forall j | 0 <= j < n
      ensures exists a :: 0 <= a < n && CrossAt(rx, ry, a) == -CrossAt(xs, ys, j)
    {
      var a := n - 1 - Next(Next(j, n), n);
      assert Prev(Prev(n - 1 - a, n), n) == j;
      CrossAtReverse(xs, ys, a);
    }
    assert HasNegativeTurn(rx, ry) == HasPositiveTurn(xs, ys);
    assert HasPositiveTurn(rx, ry) == HasNegativeTurn(xs, ys);
  }

  // ---------------------------------------------------------------------------
  // Examples

  /** Every axis-aligned rectangle listed (xmin,ymin), (xmax,ymin), (xmax,ymax), (xmin,ymax)
      is convex: all four cross products are <= 0. */
  lemma RectangleIsConvex(xmin: real, ymin: real, xmax: real, ymax: real)
    requires xmin <= xmax && ymin <= ymax
    ensures Convex([xmin, xmax, xmax, xmin], [ymin, ymin, ymax, ymax])
  {
    var xs, ys := [xmin, xmax, xmax, xmin], [ymin, ymin, ymax, ymax];
    var w, h := xmax - xmin, ymax - ymin;
    assert w * h >= 0.0;
    forall a | 0 <= a < 4 ensures CrossAt(xs, ys, a) <= 0.0 {
      assert CrossAt(xs, ys, a) == -(w * h);
    }
    assert !HasPositiveTurn(xs, ys);
  }

  /** The bowtie (0,0), (10,10), (10,0), (0,10) is rejected. */
  lemma BowtieIsNotConvex()
    ensures !Convex([0.0, 10.0, 10.0, 0.0], [0.0, 10.0, 0.0, 10.0])
  {
    var xs, ys := [0.0, 10.0, 10.0, 0.0], [0.0, 10.0, 0.0, 10.0];
    assert CrossAt(xs, ys, 0) == 100.0;
    assert CrossAt(xs, ys, 2) == -100.0;
  }

  /** Collinear vertices are accepted: (0,0), (10,0), (5,5), (0,10) has cross product 0 at
      (5,5) and -50, -50, -100 elsewhere, so it is reported convex. */
  lemma CollinearVertexAccepted()
    ensures var xs, ys := [0.0, 10.0, 5.0, 0.0], [0.0, 0.0, 5.0, 10.0];
      CrossAt(xs, ys, 1) == 0.0 && Convex(xs, ys)
  {
    var xs, ys := [0.0, 10.0, 5.0, 0.0], [0.0, 0.0, 5.0, 10.0];
    assert CrossAt(xs, ys, 0) == -50.0;
    assert CrossAt(xs, ys, 1) == 0.0;
    assert CrossAt(xs, ys, 2) == -50.0;
    assert CrossAt(xs, ys, 3) == -100.0;
    assert !HasPositiveTurn(xs, ys);
  }
}
