/** ParkingLotAnnotTool/core/definequad/lotsdata.py: the list of parking-lot
    quadrilaterals being edited, with the dirty/loaded bookkeeping, the selection,
    and the geometric queries the canvas uses. */
module LotsData {
  import opened Common
  import Geometry

  /** The flat list [x1, y1, x2, y2, x3, y3, x4, y4] stored under a lot's 'quad' key. */
  type Quad = q: seq<real> | |q| == 8 witness [0.0, 0.0, 0.0, 0.0, 0.0, 0.0, 0.0, 0.0]

  /** One record `{'id': ..., 'quad': [...]}` of the lots list. */
  datatype Lot = Lot(id: string, quad: Quad)

  /** The JSON document `{"version", "image_path", "lots"}` a lots file holds. */
  datatype LotsDocument = LotsDocument(version: string, imagePath: Option<string>, lots: seq<Lot>)

  /** The two Qt signals of LotsData, in the order they were emitted. */
  datatype Event = DataChanged | SelectedIdxChanged

  // ---------------------------------------------------------------------------
  // The quad as four vertices

  /** The reshaping done by `get_points_by_idx`: pairs (quad[2i], quad[2i+1]). */
  function Points(q: Quad): (p: seq<(real, real)>)
    ensures |p| == 4
    ensures forall i :: 0 <= i < 4 ==> p[i] == (q[2 * i], q[2 * i + 1])
  {
    [(q[0], q[1]), (q[2], q[3]), (q[4], q[5]), (q[6], q[7])]
  }

  /** Four vertices back to the flat list. */
  function Flatten(p: seq<(real, real)>): (q: Quad)
    requires |p| == 4
  {
    [p[0].0, p[0].1, p[1].0, p[1].1, p[2].0, p[2].1, p[3].0, p[3].1]
  }

  lemma FlattenPoints(q: Quad)
    ensures Flatten(Points(q)) == q
  {
  }

  lemma PointsFlatten(p: seq<(real, real)>)
    requires |p| == 4
    ensures Points(Flatten(p)) == p
  {
  }

  /** The x-coordinates and y-coordinates of the four vertices, as handed to
      `is_polygon_convex`. */
  function Xs(q: Quad): (xs: seq<real>)
    ensures |xs| == 4 && forall i :: 0 <= i < 4 ==> xs[i] == Points(q)[i].0
  {
    [q[0], q[2], q[4], q[6]]
  }

  function Ys(q: Quad): (ys: seq<real>)
    ensures |ys| == 4 && forall i :: 0 <= i < 4 ==> ys[i] == Points(q)[i].1
  {
    [q[1], q[3], q[5], q[7]]
  }

  /** What `set_point_by_idx` writes: quad[2 * pidx] := x, quad[2 * pidx + 1] := y. */
  function SetVertex(q: Quad, pidx: nat, x: real, y: real): (r: Quad)
    requires pidx < 4
  {
    q[2 * pidx := x][2 * pidx + 1 := y]
  }

  /** Only vertex pidx moves, and it moves to (x, y). */
  lemma SetVertexPoints(q: Quad, pidx: nat, x: real, y: real)
    requires pidx < 4
    ensures forall i :: 0 <= i < 4 ==>
      Points(SetVertex(q, pidx, x, y))[i] == if i == pidx then (x, y) else Points(q)[i]
  {
  }

  /** What `move_lot_by_idx` writes: dx added to every x, dy to every y. */
  function Translate(q: Quad, dx: real, dy: real): (r: Quad)
  {
    [q[0] + dx, q[1] + dy, q[2] + dx, q[3] + dy, q[4] + dx, q[5] + dy, q[6] + dx, q[7] + dy]
  }

  /** Each vertex is shifted by (dx, dy). */
  lemma TranslatePoints(q: Quad, dx: real, dy: real)
    ensures forall i :: 0 <= i < 4 ==>
      Points(Translate(q, dx, dy))[i] == (Points(q)[i].0 + dx, Points(q)[i].1 + dy)
  {
  }

  /** Moving back by (-dx, -dy) undoes a move. */
  lemma TranslateInverse(q: Quad, dx: real, dy: real)
    ensures Translate(Translate(q, dx, dy), -dx, -dy) == q
  {
  }

  /** Two moves add up. */
  lemma TranslateCompose(q: Quad, dx1: real, dy1: real, dx2: real, dy2: real)
    ensures Translate(Translate(q, dx1, dy1), dx2, dy2) == Translate(q, dx1 + dx2, dy1 + dy2)
  {
  }

  /** Moving a lot never changes whether it passes the convexity test. */
  lemma TranslateKeepsConvexity(q: Quad, dx: real, dy: real)
    ensures Geometry.Convex(Xs(Translate(q, dx, dy)), Ys(Translate(q, dx, dy)))
         == Geometry.Convex(Xs(q), Ys(q))
  {
    var xs, ys := Xs(q), Ys(q);
    var txs, tys := Xs(Translate(q, dx, dy)), Ys(Translate(q, dx, dy));
    forall a | 0 <= a < 4
      ensures Geometry.CrossAt(txs, tys, a) == Geometry.CrossAt(xs, ys, a)
    {
      var b := Geometry.Next(a, 4);
      var c := Geometry.Next(b, 4);
      Geometry.CrossProductTranslation(xs[a], ys[a], xs[b], ys[b], xs[c], ys[c], dx, dy);
    }
    assert Geometry.HasNegativeTurn(txs, tys) == Geometry.HasNegativeTurn(xs, ys);
    assert Geometry.HasPositiveTurn(txs, tys) == Geometry.HasPositiveTurn(xs, ys);
  }

  // ---------------------------------------------------------------------------
  // Point in triangle

  /** Twice the signed area of u, v, w: positive when they turn counter-clockwise. */
  function Orient(ux: real, uy: real, vx: real, vy: real, wx: real, wy: real): real
  {
    (vx - ux) * (wy - uy) - (vy - uy) * (wx - ux)
  }

  /** The three quantities `intersect` computes: s, t and A. */
  function SCoord(a: Geometry.Vector2d, b: Geometry.Triangle2d): (s: real)
    ensures s == Orient(b.x3, b.y3, b.x1, b.y1, a.x, a.y)
  {
    b.y1 * b.x3 - b.x1 * b.y3 + (b.y3 - b.y1) * a.x + (b.x1 - b.x3) * a.y
  }

  function TCoord(a: Geometry.Vector2d, b: Geometry.Triangle2d): (t: real)
    ensures t == Orient(b.x1, b.y1, b.x2, b.y2, a.x, a.y)
  {
    b.x1 * b.y2 - b.y1 * b.x2 + (b.y1 - b.y2) * a.x + (b.x2 - b.x1) * a.y
  }

  function Area2(b: Geometry.Triangle2d): (area: real)
    ensures area == Orient(b.x1, b.y1, b.x2, b.y2, b.x3, b.y3)
  {
    -b.y2 * b.x3 + b.y1 * (b.x3 - b.x2) + b.x1 * (b.y2 - b.y3) + b.x2 * b.y3
  }

  /** The third edge test, which `intersect` never computes: A - s - t. */
  lemma RemainingEdge(a: Geometry.Vector2d, b: Geometry.Triangle2d)
    ensures Area2(b) - SCoord(a, b) - TCoord(a, b) == Orient(b.x2, b.y2, b.x3, b.y3, a.x, a.y)
  {
  }

  /** The point is on the inner side of all three edges. */
  predicate StrictlyInside(a: Geometry.Vector2d, b: Geometry.Triangle2d)
  {
    var e12 := Orient(b.x1, b.y1, b.x2, b.y2, a.x, a.y);
    var e23 := Orient(b.x2, b.y2, b.x3, b.y3, a.x, a.y);
    var e31 := Orient(b.x3, b.y3, b.x1, b.y1, a.x, a.y);
    (e12 > 0.0 && e23 > 0.0 && e31 > 0.0) || (e12 < 0.0 && e23 < 0.0 && e31 < 0.0)
  }

  /** The triangle is not degenerate and the point is on the outer side of some edge. */
  predicate StrictlyOutside(a: Geometry.Vector2d, b: Geometry.Triangle2d)
  {
    var area := Orient(b.x1, b.y1, b.x2, b.y2, b.x3, b.y3);
    var e12 := Orient(b.x1, b.y1, b.x2, b.y2, a.x, a.y);
    var e23 := Orient(b.x2, b.y2, b.x3, b.y3, a.x, a.y);
    var e31 := Orient(b.x3, b.y3, b.x1, b.y1, a.x, a.y);
    (area > 0.0 && (e12 < 0.0 || e23 < 0.0 || e31 < 0.0)) ||
    (area < 0.0 && (e12 > 0.0 || e23 > 0.0 || e31 > 0.0))
  }

  /** `intersect(a, b)` as written: the sign test of s and t, then a bound on s + t
      that, for clockwise triangles, does not check the sign of t when s is zero. */
  function IntersectAsWritten(a: Geometry.Vector2d, b: Geometry.Triangle2d): bool
  {
    var s := SCoord(a, b);
    var t := TCoord(a, b);
    if (s < 0.0) != (t < 0.0) then false
    else
      var area := Area2(b);
      if area < 0.0 then s <= 0.0 && s + t >= area
      else s >= 0.0 && s + t <= area
  }

  /** The closed-triangle test `intersect` is meant to be: s, t and A - s - t all have
      the orientation's sign or are zero. */
  function Intersect(a: Geometry.Vector2d, b: Geometry.Triangle2d): bool
  {
    var s := SCoord(a, b);
    var t := TCoord(a, b);
    var area := Area2(b);
    if area < 0.0 then s <= 0.0 && t <= 0.0 && s + t >= area
    else s >= 0.0 && t >= 0.0 && s + t <= area
  }

  /** For a non-degenerate triangle, Intersect holds exactly when no edge has the point
      strictly on its outer side. */
  lemma IntersectIsClosedTriangle(a: Geometry.Vector2d, b: Geometry.Triangle2d)
    requires Area2(b) != 0.0
    ensures Intersect(a, b) <==> !StrictlyOutside(a, b)
  {
    RemainingEdge(a, b);
  }

  /** Points strictly inside are reported inside, by both versions. */
  lemma IntersectStrictlyInside(a: Geometry.Vector2d, b: Geometry.Triangle2d)
    requires StrictlyInside(a, b)
    ensures Intersect(a, b) && IntersectAsWritten(a, b)
  {
    RemainingEdge(a, b);
  }

  /** Points strictly outside are reported outside by the corrected version. */
  lemma IntersectStrictlyOutside(a: Geometry.Vector2d, b: Geometry.Triangle2d)
    requires StrictlyOutside(a, b)
    ensures !Intersect(a, b)
  {
    RemainingEdge(a, b);
  }

  /** For counter-clockwise (and degenerate) triangles the code as written is the
      closed-triangle test. */
  lemma IntersectAsWrittenCounterClockwise(a: Geometry.Vector2d, b: Geometry.Triangle2d)
    requires Area2(b) >= 0.0
    ensures IntersectAsWritten(a, b) == Intersect(a, b)
  {
  }

  /** For clockwise triangles the code as written says inside whenever s == 0 and t > 0,
      although t > 0 puts the point strictly outside the edge from v1 to v2. */
  lemma IntersectAsWrittenClockwiseEdge(a: Geometry.Vector2d, b: Geometry.Triangle2d)
    requires Area2(b) < 0.0 && SCoord(a, b) == 0.0 && TCoord(a, b) > 0.0
    ensures StrictlyOutside(a, b) && IntersectAsWritten(a, b) && !Intersect(a, b)
  {
  }

  /** An instance: the triangle (0,0), (0,10), (10,10) is clockwise (it is the second
      triangle of the square lot (0,0), (10,0), (10,10), (0,10)), and the point (-50,-50)
      is strictly outside it yet reported inside. */
  lemma IntersectAsWrittenClockwiseCounterexample()
    ensures var a, b := Geometry.Vector2d(-50.0, -50.0), Geometry.Triangle2d(0.0, 0.0, 0.0, 10.0, 10.0, 10.0);
      StrictlyOutside(a, b) && IntersectAsWritten(a, b) && !Intersect(a, b)
  {
    var a, b := Geometry.Vector2d(-50.0, -50.0), Geometry.Triangle2d(0.0, 0.0, 0.0, 10.0, 10.0, 10.0);
    assert Orient(0.0, 0.0, 0.0, 10.0, 10.0, 10.0) == -100.0;
    assert Orient(10.0, 10.0, 0.0, 0.0, -50.0, -50.0) == 0.0;
    assert Orient(0.0, 0.0, 0.0, 10.0, -50.0, -50.0) == 500.0;
    IntersectAsWrittenClockwiseEdge(a, b);
  }

  /** The two triangles `is_point_in_quad` tests for a lot: (v1, v2, v3) and (v1, v4, v3). */
  function FirstTriangle(q: Quad): Geometry.Triangle2d
  {
    Geometry.Triangle2d(q[0], q[1], q[2], q[3], q[4], q[5])
  }

  function SecondTriangle(q: Quad): Geometry.Triangle2d
  {
    Geometry.Triangle2d(q[0], q[1], q[6], q[7], q[4], q[5])
  }

  predicate InQuad(q: Quad, x: real, y: real)
  {
    var p := Geometry.Vector2d(x, y);
    Intersect(p, FirstTriangle(q)) || Intersect(p, SecondTriangle(q))
  }

  predicate InQuadAsWritten(q: Quad, x: real, y: real)
  {
    var p := Geometry.Vector2d(x, y);
    IntersectAsWritten(p, FirstTriangle(q)) || IntersectAsWritten(p, SecondTriangle(q))
  }

  /** The square lot (0,0), (10,0), (10,10), (0,10), as the add-lot dialog creates it. */
  const Square: Quad := [0.0, 0.0, 10.0, 0.0, 10.0, 10.0, 0.0, 10.0]

  /** The point (-50,-50) lies outside the square, on the extension of its diagonal: the
      code as written puts it in the lot, the corrected test does not. */
  lemma InQuadAsWrittenCounterexample()
    ensures InQuadAsWritten(Square, -50.0, -50.0) && !InQuad(Square, -50.0, -50.0)
  {
    SquareFirstTriangle();
    SquareSecondTriangle();
  }

  lemma SquareFirstTriangle()
    ensures var p := Geometry.Vector2d(-50.0, -50.0);
      !Intersect(p, FirstTriangle(Square)) && !IntersectAsWritten(p, FirstTriangle(Square))
  {
    assert FirstTriangle(Square) == Geometry.Triangle2d(0.0, 0.0, 10.0, 0.0, 10.0, 10.0);
    assert Orient(0.0, 0.0, 10.0, 0.0, 10.0, 10.0) == 100.0;
    assert Orient(0.0, 0.0, 10.0, 0.0, -50.0, -50.0) == -500.0;
    OutsideFirstEdge(Geometry.Vector2d(-50.0, -50.0), FirstTriangle(Square));
  }

  lemma SquareSecondTriangle()
    ensures var p := Geometry.Vector2d(-50.0, -50.0);
      IntersectAsWritten(p, SecondTriangle(Square)) && !Intersect(p, SecondTriangle(Square))
  {
    assert SecondTriangle(Square) == Geometry.Triangle2d(0.0, 0.0, 0.0, 10.0, 10.0, 10.0);
    IntersectAsWrittenClockwiseCounterexample();
  }

  /** A counter-clockwise triangle with t < 0 is rejected by both versions. */
  lemma OutsideFirstEdge(a: Geometry.Vector2d, b: Geometry.Triangle2d)
    requires Area2(b) > 0.0 && TCoord(a, b) < 0.0
    ensures !Intersect(a, b) && !IntersectAsWritten(a, b)
  {
  }

  /** The lot `is_point_in_quad` reports when scanning from index i: the first one whose
      quad contains (x, y). */
  function FirstLotContaining(lots: seq<Lot>, x: real, y: real, i: nat): (r: Option<nat>)
    requires i <= |lots|
    ensures r.Some? ==> i <= r.value < |lots| && InQuad(lots[r.value].quad, x, y)
    ensures r.Some? ==> forall l :: i <= l < r.value ==> !InQuad(lots[l].quad, x, y)
    ensures r.None? <==> forall l :: i <= l < |lots| ==> !InQuad(lots[l].quad, x, y)
    decreases |lots| - i
  {
    if i == |lots| then None
    else if InQuad(lots[i].quad, x, y) then Some(i)
    else FirstLotContaining(lots, x, y, i + 1)
  }

  /** The lot `is_point_in_quad` as written reports when scanning from index i. */
  function FirstLotContainingAsWritten(lots: seq<Lot>, x: real, y: real, i: nat): (r: Option<nat>)
    requires i <= |lots|
    ensures r.Some? ==> i <= r.value < |lots| && InQuadAsWritten(lots[r.value].quad, x, y)
    ensures r.Some? ==> forall l :: i <= l < r.value ==> !InQuadAsWritten(lots[l].quad, x, y)
    ensures r.None? <==> forall l :: i <= l < |lots| ==> !InQuadAsWritten(lots[l].quad, x, y)
    decreases |lots| - i
  {
    if i == |lots| then None
    else if InQuadAsWritten(lots[i].quad, x, y) then Some(i)
    else FirstLotContainingAsWritten(lots, x, y, i + 1)
  }

  /** With the single square lot, `is_point_in_quad(-50, -50)` as written returns lot 0,
      and the corrected scan returns None. */
  lemma FirstLotContainingAsWrittenCounterexample()
    ensures var lots := [Lot("0", Square)];
      FirstLotContainingAsWritten(lots, -50.0, -50.0, 0) == Some(0) &&
      FirstLotContaining(lots, -50.0, -50.0, 0).None?
  {
    var lots := [Lot("0", Square)];
    assert InQuadAsWritten(lots[0].quad, -50.0, -50.0) && !InQuad(lots[0].quad, -50.0, -50.0) by {
      InQuadAsWrittenCounterexample();
    }
    assert FirstLotContaining(lots, -50.0, -50.0, 1).None?;
  }

  // ---------------------------------------------------------------------------
  // Nearest vertex

  /** The result of `nearest_point` when there is at least one lot; the distance is kept
      squared, which selects the same vertex because the square root is monotone. */
  datatype Nearest = Nearest(sqDist: real, lidx: nat, pidx: nat)

  function SqDist(lots: seq<Lot>, lidx: nat, pidx: nat, x: real, y: real): (d: real)
    requires lidx < |lots| && pidx < 4
    ensures d >= 0.0
  {
    var p := Points(lots[lidx].quad)[pidx];
    (p.0 - x) * (p.0 - x) + (p.1 - y) * (p.1 - y)
  }

  /** Vertex (l, p) comes before vertex (l', p') in the scan order of the two loops. */
  predicate Before(l: nat, p: nat, l2: nat, p2: nat)
  {
    l < l2 || (l == l2 && p < p2)
  }

  /** The running minimum of `nearest_point` after scanning the vertices of the first
      `l` lots and the first `p` vertices of lot `l`. Strict `<` keeps the earliest. */
  function NearestSoFar(lots: seq<Lot>, x: real, y: real, l: nat, p: nat): (r: Option<Nearest>)
    requires (l < |lots| && p <= 4) || (l == |lots| && p == 0)
    ensures r.None? <==> l == 0 && p == 0
    ensures r.Some? ==>
      r.value.lidx < |lots| && r.value.pidx < 4 && Before(r.value.lidx, r.value.pidx, l, p) &&
      r.value.sqDist == SqDist(lots, r.value.lidx, r.value.pidx, x, y)
    ensures r.Some? ==> forall l', p' :: 0 <= p' < 4 && Before(l', p', l, p) ==>
      r.value.sqDist <= SqDist(lots, l', p', x, y)
    ensures r.Some? ==> forall l', p' :: 0 <= p' < 4 && Before(l', p', r.value.lidx, r.value.pidx) ==>
      r.value.sqDist < SqDist(lots, l', p', x, y)
    decreases l, p
  {
    if p == 0 then
      if l == 0 then None else NearestSoFar(lots, x, y, l - 1, 4)
    else
      var prev := NearestSoFar(lots, x, y, l, p - 1);
      var d := SqDist(lots, l, p - 1, x, y);
      if prev.None? || d < prev.value.sqDist then Some(Nearest(d, l, p - 1)) else prev
  }

  /** `nearest_point(x, y)` for the lots `lots`: None when there are no lots, otherwise
      the vertex of least distance, the earliest one in lot/vertex order among ties. */
  function NearestVertex(lots: seq<Lot>, x: real, y: real): (r: Option<Nearest>)
  {
    NearestSoFar(lots, x, y, |lots|, 0)
  }

  lemma NearestVertexSpec(lots: seq<Lot>, x: real, y: real)
    ensures NearestVertex(lots, x, y).None? <==> |lots| == 0
    ensures var r := NearestVertex(lots, x, y);
      r.Some? ==>
        r.value.lidx < |lots| && r.value.pidx < 4 &&
        r.value.sqDist == SqDist(lots, r.value.lidx, r.value.pidx, x, y) &&
        (forall l, p :: 0 <= l < |lots| && 0 <= p < 4 ==> r.value.sqDist <= SqDist(lots, l, p, x, y)) &&
        (forall l, p :: 0 <= p < 4 && Before(l, p, r.value.lidx, r.value.pidx) ==>
           r.value.sqDist < SqDist(lots, l, p, x, y))
  {
    if |lots| > 0 {
      var r := NearestVertex(lots, x, y);
      assert r.Some?;
      forall l, p | 0 <= l < |lots| && 0 <= p < 4
        ensures r.value.sqDist <= SqDist(lots, l, p, x, y)
      {
        assert Before(l, p, |lots|, 0);
      }
    }
  }

  // ---------------------------------------------------------------------------
  // The store

  class LotStore {
    var lots: seq<Lot>
    var dirty: bool
    var loaded: bool
    var jsonPath: Option<string>
    var imagePath: Option<string>
    var addable: bool
    var editable: bool
    var selectedIdx: Option<int>
    /** Emitted signals, oldest first. */
    var events: seq<Event>
    /** Documents written to the JSON path, oldest first. */
    var saved: seq<LotsDocument>

    constructor ()
      ensures lots == [] && !dirty && !loaded && jsonPath.None? && imagePath.None?
      ensures !addable && !editable && selectedIdx.None?
      ensures events == [] && saved == []
    {
      lots := [];
      dirty := false;
      loaded := false;
      jsonPath := None;
      imagePath := None;
      addable := false;
      editable := false;
      selectedIdx := None;
      events := [];
      saved := [];
    }

    /** The document `save` writes. */
    function Document(): (doc: LotsDocument)
      reads this
      ensures doc.version == "0.1" && doc.imagePath == imagePath && doc.lots == lots
    {
      LotsDocument("0.1", imagePath, lots)
    }

    /** `save`: writes the document and marks the data clean and loaded. */
    method Save()
      modifies this
      ensures saved == old(saved) + [old(Document())]
      ensures loaded && !dirty
      ensures lots == old(lots) && imagePath == old(imagePath) && jsonPath == old(jsonPath)
      ensures addable == old(addable) && editable == old(editable)
      ensures selectedIdx == old(selectedIdx) && events == old(events)
    {
      saved := saved + [Document()];
      loaded := true;
      dirty := false;
    }

    /** `may_save`: saves only if there are unsaved changes and the user answers yes. */
    method MaySave(answer: SaveAnswer)
      modifies this
      ensures if old(dirty) && answer == AnswerYes
        then saved == old(saved) + [old(Document())] && loaded && !dirty
        else saved == old(saved) && loaded == old(loaded) && dirty == old(dirty)
      ensures lots == old(lots) && imagePath == old(imagePath) && jsonPath == old(jsonPath)
      ensures addable == old(addable) && editable == old(editable)
      ensures selectedIdx == old(selectedIdx) && events == old(events)
    {
      if !dirty {
        return;
      }
      if answer == AnswerYes {
        Save();
      }
    }

    /** `reset`: after the save question, an empty clean list with no selection. */
    method Reset(answer: SaveAnswer)
      modifies this
      ensures lots == [] && !dirty && selectedIdx.None?
      ensures events == old(events) + [DataChanged]
      ensures saved == if old(dirty) && answer == AnswerYes then old(saved) + [old(Document())] else old(saved)
      ensures loaded == (old(loaded) || (old(dirty) && answer == AnswerYes))
      ensures imagePath == old(imagePath) && jsonPath == old(jsonPath)
      ensures addable == old(addable) && editable == old(editable)
    {
      MaySave(answer);
      lots := [];
      dirty := false;
      selectedIdx := None;
      events := events + [DataChanged];
    }

    /** `load`: after the save question, takes image path and lots from the document read
        from the JSON path, clean, loaded, with no selection. */
    method Load(doc: LotsDocument, answer: SaveAnswer)
      modifies this
      ensures lots == doc.lots && imagePath == doc.imagePath
      ensures !dirty && loaded && selectedIdx.None?
      ensures events == old(events) + [DataChanged]
      ensures saved == if old(dirty) && answer == AnswerYes then old(saved) + [old(Document())] else old(saved)
      ensures jsonPath == old(jsonPath) && addable == old(addable) && editable == old(editable)
    {
      MaySave(answer);
      imagePath := doc.imagePath;
      lots := doc.lots;
      dirty := false;
      loaded := true;
      selectedIdx := None;
      events := events + [DataChanged];
    }

    method SetEditable(value: bool)
      modifies this
      ensures editable == value
      ensures lots == old(lots) && dirty == old(dirty) && loaded == old(loaded) && addable == old(addable)
      ensures imagePath == old(imagePath) && jsonPath == old(jsonPath)
      ensures selectedIdx == old(selectedIdx) && events == old(events) && saved == old(saved)
    {
      editable := value;
    }

    method SetAddable(value: bool)
      modifies this
      ensures addable == value
      ensures lots == old(lots) && dirty == old(dirty) && loaded == old(loaded) && editable == old(editable)
      ensures imagePath == old(imagePath) && jsonPath == old(jsonPath)
      ensures selectedIdx == old(selectedIdx) && events == old(events) && saved == old(saved)
    {
      addable := value;
    }

    method SetImagePath(path: Option<string>)
      modifies this
      ensures imagePath == path
      ensures lots == old(lots) && dirty == old(dirty) && loaded == old(loaded)
      ensures addable == old(addable) && editable == old(editable) && jsonPath == old(jsonPath)
      ensures selectedIdx == old(selectedIdx) && events == old(events) && saved == old(saved)
    {
      imagePath := path;
    }

    /** `set_json_path`: the file `save` writes to. */
    method SetJsonPath(path: Option<string>)
      modifies this
      ensures jsonPath == path
      ensures lots == old(lots) && dirty == old(dirty) && loaded == old(loaded)
      ensures addable == old(addable) && editable == old(editable) && imagePath == old(imagePath)
      ensures selectedIdx == old(selectedIdx) && events == old(events) && saved == old(saved)
    {
      jsonPath := path;
    }

    /** `set_selected_idx`: stores the index (or None) and emits selected_idx_changed. */
    method SetSelectedIdx(idx: Option<int>)
      modifies this
      ensures selectedIdx == idx
      ensures events == old(events) + [SelectedIdxChanged]
      ensures lots == old(lots) && dirty == old(dirty) && loaded == old(loaded)
      ensures addable == old(addable) && editable == old(editable)
      ensures imagePath == old(imagePath) && jsonPath == old(jsonPath) && saved == old(saved)
    {
      selectedIdx := idx;
      events := events + [SelectedIdxChanged];
    }

    /** `get_lot_by_idx`: None for an index past the end. */
    function GetLotByIdx(lidx: nat): (r: Option<Lot>)
      reads this
      ensures r.None? <==> |lots| <= lidx
      ensures r.Some? ==> r.value == lots[lidx]
    {
      if |lots| <= lidx then None else Some(lots[lidx])
    }

    /** `get_points_by_idx`: the quad of lot lidx as four [x, y] pairs in order, or None. */
    function GetPointsByIdx(lidx: nat): (r: Option<seq<(real, real)>>)
      reads this
      ensures r.None? <==> |lots| <= lidx
      ensures r.Some? ==> |r.value| == 4 && Flatten(r.value) == lots[lidx].quad
      ensures r.Some? ==> forall i :: 0 <= i < 4 ==>
        r.value[i] == (lots[lidx].quad[2 * i], lots[lidx].quad[2 * i + 1])
    {
      var lot := GetLotByIdx(lidx);
      if lot.None? then None else Some(Points(lot.value.quad))
    }

    /** `set_point_by_idx`: moves one vertex of one lot and marks the data dirty; an
        index past the end changes nothing. No signal is emitted. */
    method SetPointByIdx(lidx: nat, pidx: nat, x: real, y: real)
      requires pidx < 4
      modifies this
      ensures if lidx < |old(lots)|
        then lots == old(lots)[lidx := Lot(old(lots)[lidx].id, SetVertex(old(lots)[lidx].quad, pidx, x, y))]
          && dirty
        else lots == old(lots) && dirty == old(dirty)
      ensures events == old(events) && loaded == old(loaded) && selectedIdx == old(selectedIdx)
      ensures addable == old(addable) && editable == old(editable)
      ensures imagePath == old(imagePath) && jsonPath == old(jsonPath) && saved == old(saved)
    {
      var lot := GetLotByIdx(lidx);
      if lot.None? {
        return;
      }
      lots := lots[lidx := Lot(lot.value.id, SetVertex(lot.value.quad, pidx, x, y))];
      dirty := true;
    }

    /** `move_lot_by_idx`: translates every vertex of one lot and marks the data dirty;
        an index past the end changes nothing. */
    method MoveLotByIdx(lidx: nat, dx: real, dy: real)
      modifies this
      ensures if lidx < |old(lots)|
        then lots == old(lots)[lidx := Lot(old(lots)[lidx].id, Translate(old(lots)[lidx].quad, dx, dy))]
          && dirty
        else lots == old(lots) && dirty == old(dirty)
      ensures events == old(events) && loaded == old(loaded) && selectedIdx == old(selectedIdx)
      ensures addable == old(addable) && editable == old(editable)
      ensures imagePath == old(imagePath) && jsonPath == old(jsonPath) && saved == old(saved)
    {
      var lot := GetLotByIdx(lidx);
      if lot.None? {
        return;
      }
      var quad := lot.value.quad;
      lots := lots[lidx := Lot(lot.value.id, Translate(quad, dx, dy))];
      dirty := true;
    }

    /** `delete_selected_area`: pops the selected lot (Python indexing, so a negative index
        counts from the end), clears the selection and emits data_changed; it does not
        mark the data dirty. With no selection it does nothing. `ok` is false when the
        pop raises IndexError, which happens before anything changes. */
    method DeleteSelectedArea() returns (ok: bool)
      modifies this
      ensures ok <==> old(selectedIdx).None? || PyIndex(old(selectedIdx).value, |old(lots)|).Some?
      ensures if old(selectedIdx).Some? && ok
        then lots == RemoveAt(old(lots), PyIndex(old(selectedIdx).value, |old(lots)|).value)
          && selectedIdx.None? && events == old(events) + [DataChanged]
        else lots == old(lots) && selectedIdx == old(selectedIdx) && events == old(events)
      ensures dirty == old(dirty) && loaded == old(loaded)
      ensures addable == old(addable) && editable == old(editable)
      ensures imagePath == old(imagePath) && jsonPath == old(jsonPath) && saved == old(saved)
    {
      if selectedIdx.None? {
        return true;
      }
      var k := PyIndex(selectedIdx.value, |lots|);
      if k.None? {
        return false;
      }
      lots := RemoveAt(lots, k.value);
      selectedIdx := None;
      events := events + [DataChanged];
      return true;
    }

    /** `nearest_point(x, y)`: the two nested loops with the running minimum. */
    method NearestPoint(x: real, y: real) returns (r: Option<Nearest>)
      ensures r == NearestVertex(lots, x, y)
    {
      r := None;
      for l := 0 to |lots|
        invariant r == NearestSoFar(lots, x, y, l, 0)
      {
        for p := 0 to 4
          invariant r == NearestSoFar(lots, x, y, l, p)
        {
          var d := SqDist(lots, l, p, x, y);
          if r.None? || d < r.value.sqDist {
            r := Some(Nearest(d, l, p));
          }
        }
        assert NearestSoFar(lots, x, y, l + 1, 0) == NearestSoFar(lots, x, y, l, 4);
      }
    }

    /** `is_point_in_quad(x, y)`: the first lot whose quad contains the point, or None. */
    method IsPointInQuad(x: real, y: real) returns (r: Option<nat>)
      ensures r == FirstLotContaining(lots, x, y, 0)
    {
      for l := 0 to |lots|
        invariant FirstLotContaining(lots, x, y, 0) == FirstLotContaining(lots, x, y, l)
      {
        var q := lots[l].quad;
        var p := Geometry.Vector2d(x, y);
        if Intersect(p, Geometry.Triangle2d(q[0], q[1], q[2], q[3], q[4], q[5])) ||
           Intersect(p, Geometry.Triangle2d(q[0], q[1], q[6], q[7], q[4], q[5])) {
          return Some(l);
        }
      }
      return None;
    }

    /** `add_lot`: appends the new record at the end, marks the data dirty and emits
        data_changed. Neither the id nor the shape is checked. */
    method AddLot(lotId: string, x1: real, y1: real, x2: real, y2: real,
                  x3: real, y3: real, x4: real, y4: real)
      modifies this
      ensures lots == old(lots) + [Lot(lotId, [x1, y1, x2, y2, x3, y3, x4, y4])]
      ensures dirty && events == old(events) + [DataChanged]
      ensures loaded == old(loaded) && selectedIdx == old(selectedIdx)
      ensures addable == old(addable) && editable == old(editable)
      ensures imagePath == old(imagePath) && jsonPath == old(jsonPath) && saved == old(saved)
    {
      lots := lots + [Lot(lotId, [x1, y1, x2, y2, x3, y3, x4, y4])];
      dirty := true;
      events := events + [DataChanged];
    }
  }
}
