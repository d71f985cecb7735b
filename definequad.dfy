/** ParkingLotAnnotTool/core/definequad/definequad.py: the mouse and key state machine
    of the quadrilateral canvas, the rectangle the add-lot dialog creates, the two
    tool modes and the documents "Extract frames" writes. */
module DefineQuad {
  import opened Common
  import opened Geometry
  import opened LotsData
  import SceneData
  import ConditionsData

  /** Pick radius of a vertex, in screen pixels. */
  const Epsilon: real := 16.0

  // ---------------------------------------------------------------------------
  // Hover highlighting

  /** `dist < limit` for the distance whose square is sqDist. */
  predicate Closer(sqDist: real, limit: real)
  {
    limit > 0.0 && sqDist < limit * limit
  }

  /** Comparing squared distances decides the same as comparing the distances. */
  lemma CloserIsDistance(d: real, limit: real)
    requires d >= 0.0
    ensures d < limit <==> Closer(d * d, limit)
  {
    if 0.0 < limit {
      if d < limit {
        SquareLt(d, limit);
      } else if limit < d {
        SquareLt(limit, d);
      }
    }
  }

  lemma PositiveProduct(x: real, y: real)
    requires x > 0.0 && y > 0.0
    ensures x * y > 0.0
  {
  }

  lemma SquareLt(a: real, b: real)
    requires 0.0 <= a < b
    ensures a * a < b * b
  {
    PositiveProduct(b - a, b + a);
    assert (b - a) * (b + a) == b * b - a * a;
  }

  /** The highlight the hover branch of `mouse_move_event_impl` computes, or HoverCrash
      for the ZeroDivisionError of `epsilon / scale` with a zero scale. */
  datatype Hover = HoverCrash | Hover(lidx: Option<nat>, pidx: Option<nat>)

  function HoverResult(lots: seq<Lot>, x: real, y: real, scale: real): Hover
  {
    match NearestVertex(lots, x, y)
    case None => Hover(None, None)
    case Some(nv) =>
      if scale == 0.0 then HoverCrash
      else if Closer(nv.sqDist, Epsilon / scale) then Hover(Some(nv.lidx), Some(nv.pidx))
      else Hover(FirstLotContaining(lots, x, y, 0), None)
  }

  /** The hover highlight is the nearest vertex (first in lot and vertex order on ties)
      when it is strictly closer than epsilon / scale; otherwise the first lot whose
      quad contains the cursor, with no vertex; otherwise nothing. Only a zero scale
      with some lot present fails. */
  lemma HoverMeaning(lots: seq<Lot>, x: real, y: real, scale: real)
    ensures var h := HoverResult(lots, x, y, scale);
      (h.HoverCrash? <==> |lots| > 0 && scale == 0.0) &&
      (h.Hover? && h.pidx.Some? ==>
        h.lidx.Some? && h.lidx.value < |lots| && h.pidx.value < 4 &&
        Closer(SqDist(lots, h.lidx.value, h.pidx.value, x, y), Epsilon / scale) &&
        (forall l, p :: 0 <= l < |lots| && 0 <= p < 4 ==>
           SqDist(lots, h.lidx.value, h.pidx.value, x, y) <= SqDist(lots, l, p, x, y)) &&
        (forall l, p :: 0 <= p < 4 && Before(l, p, h.lidx.value, h.pidx.value) ==>
           SqDist(lots, h.lidx.value, h.pidx.value, x, y) < SqDist(lots, l, p, x, y))) &&
      (h.Hover? && h.pidx.None? ==>
        (forall l, p :: 0 <= l < |lots| && 0 <= p < 4 ==> !Closer(SqDist(lots, l, p, x, y), Epsilon / scale)) &&
        h.lidx == FirstLotContaining(lots, x, y, 0))
  {
    NearestVertexSpec(lots, x, y);
    var r := NearestVertex(lots, x, y);
    if r.Some? && scale != 0.0 && !Closer(r.value.sqDist, Epsilon / scale) {
      var limit := Epsilon / scale;
      forall l, p | 0 <= l < |lots| && 0 <= p < 4
        ensures !Closer(SqDist(lots, l, p, x, y), limit)
      {
        assert r.value.sqDist <= SqDist(lots, l, p, x, y);
      }
    }
  }

  // ---------------------------------------------------------------------------
  // Convex lots

  /** Every lot's quad passes the convexity test. */
  ghost predicate AllConvex(lots: seq<Lot>)
  {
    forall i :: 0 <= i < |lots| ==> Convex(Xs(lots[i].quad), Ys(lots[i].quad))
  }

  /** The rectangle `AddLotDialog.popup` adds for a drag from (px, py) to (x, y):
      corners (xmin, ymin), (xmax, ymin), (xmax, ymax), (xmin, ymax) of the two points.
      It always passes the convexity test. */
  function PopupRectangle(px: real, py: real, x: real, y: real): (q: Quad)
    ensures Convex(Xs(q), Ys(q))
  {
    var xmin := if px <= x then px else x;
    var ymin := if py <= y then py else y;
    var xmax := if px <= x then x else px;
    var ymax := if py <= y then y else py;
    RectangleIsConvex(xmin, ymin, xmax, ymax);
    [xmin, ymin, xmax, ymin, xmax, ymax, xmin, ymax]
  }

  /** The press and the release point are both corners of the rectangle, every corner
      lies within their bounding box, and swapping the two points gives the same lot. */
  lemma PopupRectangleCorners(px: real, py: real, x: real, y: real)
    ensures var ps := Points(PopupRectangle(px, py, x, y));
      (px, py) in ps && (x, y) in ps &&
      (forall i :: 0 <= i < 4 ==>
        (ps[i].0 == px || ps[i].0 == x) && (ps[i].1 == py || ps[i].1 == y)) &&
      ps[0].0 <= ps[1].0 && ps[0].1 <= ps[2].1 &&
      PopupRectangle(px, py, x, y) == PopupRectangle(x, y, px, py)
  {
    var ps := Points(PopupRectangle(px, py, x, y));
    if px <= x && py <= y { assert ps[0] == (px, py) && ps[2] == (x, y); }
    else if px <= x { assert ps[3] == (px, py) && ps[1] == (x, y); }
    else if py <= y { assert ps[1] == (px, py) && ps[3] == (x, y); }
    else { assert ps[2] == (px, py) && ps[0] == (x, y); }
  }

  /** The three edits a canvas makes keep every lot convex: moving one vertex to a
      position that passes the test, translating a lot, and appending a convex quad. */
  lemma AllConvexUpdate(lots: seq<Lot>, i: nat, l: Lot)
    requires AllConvex(lots) && i < |lots| && Convex(Xs(l.quad), Ys(l.quad))
    ensures AllConvex(lots[i := l])
  {
  }

  lemma AllConvexTranslate(lots: seq<Lot>, i: nat, dx: real, dy: real)
    requires AllConvex(lots) && i < |lots|
    ensures AllConvex(lots[i := Lot(lots[i].id, Translate(lots[i].quad, dx, dy))])
  {
    TranslateKeepsConvexity(lots[i].quad, dx, dy);
  }

  lemma AllConvexRemove(lots: seq<Lot>, k: nat)
    requires AllConvex(lots) && k < |lots|
    ensures AllConvex(RemoveAt(lots, k))
  {
    var r := RemoveAt(lots, k);
    forall i | 0 <= i < |r| ensures Convex(Xs(r[i].quad), Ys(r[i].quad)) {
      if i < k { assert r[i] == lots[i]; } else { assert r[i] == lots[i + 1]; }
    }
  }

  // ---------------------------------------------------------------------------
  // The canvas

  datatype Key = Escape | Delete | OtherKey

  datatype Button = LeftButton | OtherButton

  /** What the add-lot dialog returns: closed without OK, or OK with the typed id. */
  datatype DialogAnswer = DialogCancelled | DialogAccepted(lotId: string)

  class Canvas {
    const store: LotStore
    var highlightedLidx: Option<nat>
    var highlightedPidx: Option<nat>
    var mouseX: Option<real>
    var mouseY: Option<real>
    var mousePressed: bool
    var mousePressedX: Option<real>
    var mousePressedY: Option<real>
    var mousePressedOnLot: bool
    var mousePressedOnPoint: bool

    /** What the handlers keep: a highlighted vertex belongs to a highlighted lot, a
        press on a vertex has one, and anything highlighted or pressed comes after a
        mouse move that recorded the cursor. */
    ghost predicate Valid()
      reads this
    {
      (highlightedPidx.Some? ==> highlightedLidx.Some? && highlightedPidx.value < 4) &&
      (mousePressedOnPoint ==> highlightedPidx.Some?) &&
      (highlightedLidx.Some? || mousePressedOnLot || mousePressedOnPoint ==> mouseX.Some? && mouseY.Some?)
    }

    constructor (store: LotStore)
      ensures this.store == store && Valid()
      ensures highlightedLidx.None? && highlightedPidx.None? && mouseX.None? && mouseY.None?
      ensures !mousePressed && mousePressedX.None? && mousePressedY.None?
      ensures !mousePressedOnLot && !mousePressedOnPoint
    {
      this.store := store;
      highlightedLidx := None;
      highlightedPidx := None;
      mouseX := None;
      mouseY := None;
      mousePressed := false;
      mousePressedX := None;
      mousePressedY := None;
      mousePressedOnLot := false;
      mousePressedOnPoint := false;
    }

    /** `key_press_event_impl`: Escape clears the selection, Delete removes the
        selected lot (false for an IndexError there), other keys do nothing. */
    method KeyPressEvent(key: Key) returns (ok: bool)
      modifies store
      ensures key == Escape ==> (ok && store.selectedIdx.None? && store.lots == old(store.lots) &&
        store.events == old(store.events) + [SelectedIdxChanged])
      ensures key == Delete ==>
        (ok <==> old(store.selectedIdx).None? || PyIndex(old(store.selectedIdx).value, |old(store.lots)|).Some?) &&
        (if ok && old(store.selectedIdx).Some? then
           store.lots == RemoveAt(old(store.lots), PyIndex(old(store.selectedIdx).value, |old(store.lots)|).value) &&
           store.selectedIdx.None? && store.events == old(store.events) + [DataChanged]
         else
           store.lots == old(store.lots) && store.selectedIdx == old(store.selectedIdx) &&
           store.events == old(store.events))
      ensures key == OtherKey ==>
        ok && store.lots == old(store.lots) && store.selectedIdx == old(store.selectedIdx) &&
        store.events == old(store.events)
      ensures AllConvex(old(store.lots)) ==> AllConvex(store.lots)
      ensures store.dirty == old(store.dirty) && store.editable == old(store.editable)
      ensures store.addable == old(store.addable) && store.saved == old(store.saved)
      ensures store.loaded == old(store.loaded) && store.imagePath == old(store.imagePath)
      ensures store.jsonPath == old(store.jsonPath)
    {
      ok := true;
      if key == Escape {
        store.SetSelectedIdx(None);
      } else if key == Delete {
        ghost var before := store.lots;
        ok := store.DeleteSelectedArea();
        if AllConvex(before) && store.lots != before {
          AllConvexRemove(before, PyIndex(old(store.selectedIdx).value, |before|).value);
        }
      }
    }

    /** `mouse_move_event_impl` at cursor (x, y) with view scale `scale`; false where
        the source raises (a vertex drag on a lot index past the end, a lot drag with
        nothing highlighted, a zero scale while hovering over a non-empty store). */
    method MouseMoveEvent(x: real, y: real, scale: real) returns (ok: bool)
      requires Valid()
      modifies this, store
      ensures ok ==> Valid()
      ensures unchanged(this`mousePressed, this`mousePressedX, this`mousePressedY)
      ensures unchanged(this`mousePressedOnLot, this`mousePressedOnPoint)
      ensures store.events == old(store.events) && store.loaded == old(store.loaded)
      ensures store.selectedIdx == old(store.selectedIdx) && store.saved == old(store.saved)
      ensures store.addable == old(store.addable) && store.editable == old(store.editable)
      ensures store.imagePath == old(store.imagePath) && store.jsonPath == old(store.jsonPath)
      // a vertex drag commits only a convex candidate; a rejected one leaves even the
      // recorded cursor alone
      ensures old(mousePressedOnPoint) ==>
        var l, p := old(highlightedLidx).value, old(highlightedPidx).value;
        unchanged(this`highlightedLidx, this`highlightedPidx) &&
        (ok <==> l < |old(store.lots)|) &&
        (ok ==>
          var c := SetVertex(old(store.lots)[l].quad, p, x, y);
          if Convex(Xs(c), Ys(c))
          then store.lots == old(store.lots)[l := Lot(old(store.lots)[l].id, c)] && store.dirty &&
               mouseX == Some(x) && mouseY == Some(y)
          else store.lots == old(store.lots) && store.dirty == old(store.dirty) &&
               unchanged(this`mouseX, this`mouseY))
      // a lot drag translates by the cursor's movement since the last recorded move
      ensures !old(mousePressedOnPoint) && old(store.editable) && old(mousePressedOnLot) ==>
        unchanged(this`highlightedLidx, this`highlightedPidx) &&
        (ok <==> old(highlightedLidx).Some?) &&
        (ok ==>
          var l := old(highlightedLidx).value;
          mouseX == Some(x) && mouseY == Some(y) &&
          if l < |old(store.lots)|
          then store.lots == old(store.lots)[l := Lot(old(store.lots)[l].id,
                 Translate(old(store.lots)[l].quad, x - old(mouseX).value, y - old(mouseY).value))] && store.dirty
          else store.lots == old(store.lots) && store.dirty == old(store.dirty))
      // otherwise the highlight is recomputed from scratch
      ensures !old(mousePressedOnPoint) && !(old(store.editable) && old(mousePressedOnLot)) ==>
        var h := HoverResult(old(store.lots), x, y, scale);
        store.lots == old(store.lots) && store.dirty == old(store.dirty) &&
        (ok <==> h.Hover?) &&
        (ok ==> highlightedLidx == h.lidx && highlightedPidx == h.pidx && mouseX == Some(x) && mouseY == Some(y))
      ensures AllConvex(old(store.lots)) ==> AllConvex(store.lots)
    {
      if mousePressedOnPoint {
        ok := DragVertex(x, y);
      } else if store.editable && mousePressedOnLot {
        ok := DragLot(x, y);
      } else {
        ok := HoverAt(x, y, scale);
      }
    }

    /** The vertex-drag branch of `mouse_move_event_impl`. */
    method DragVertex(x: real, y: real) returns (ok: bool)
      requires Valid() && mousePressedOnPoint
      modifies this, store
      ensures ok ==> Valid()
      ensures unchanged(this`mousePressed, this`mousePressedX, this`mousePressedY)
      ensures unchanged(this`mousePressedOnLot, this`mousePressedOnPoint)
      ensures unchanged(this`highlightedLidx, this`highlightedPidx)
      ensures store.events == old(store.events) && store.loaded == old(store.loaded)
      ensures store.selectedIdx == old(store.selectedIdx) && store.saved == old(store.saved)
      ensures store.addable == old(store.addable) && store.editable == old(store.editable)
      ensures store.imagePath == old(store.imagePath) && store.jsonPath == old(store.jsonPath)
      ensures var l, p := old(highlightedLidx).value, old(highlightedPidx).value;
        (ok <==> l < |old(store.lots)|) &&
        (ok ==>
          var c := SetVertex(old(store.lots)[l].quad, p, x, y);
          if Convex(Xs(c), Ys(c))
          then store.lots == old(store.lots)[l := Lot(old(store.lots)[l].id, c)] && store.dirty &&
               mouseX == Some(x) && mouseY == Some(y)
          else store.lots == old(store.lots) && store.dirty == old(store.dirty) &&
               unchanged(this`mouseX, this`mouseY))
      ensures AllConvex(old(store.lots)) ==> AllConvex(store.lots)
    {
      var l, p := highlightedLidx.value, highlightedPidx.value;
      var points := store.GetPointsByIdx(l);
      if points.None? {
        return false;
      }
      var candidate := points.value[p := (x, y)];
      ghost var c := SetVertex(store.lots[l].quad, p, x, y);
      SetVertexPoints(store.lots[l].quad, p, x, y);
      var xs := [candidate[0].0, candidate[1].0, candidate[2].0, candidate[3].0];
      var ys := [candidate[0].1, candidate[1].1, candidate[2].1, candidate[3].1];
      assert xs == Xs(c) && ys == Ys(c);
      var quadIsConvex := IsPolygonConvex(xs, ys);
      if !quadIsConvex {
        return true;
      }
      ghost var before := store.lots;
      store.SetPointByIdx(l, p, x, y);
      if AllConvex(before) {
        AllConvexUpdate(before, l, Lot(before[l].id, c));
      }
      mouseX := Some(x);
      mouseY := Some(y);
      return true;
    }

    /** The lot-drag branch of `mouse_move_event_impl`. */
    method DragLot(x: real, y: real) returns (ok: bool)
      requires Valid() && mousePressedOnLot
      modifies this, store
      ensures ok ==> Valid()
      ensures unchanged(this`mousePressed, this`mousePressedX, this`mousePressedY)
      ensures unchanged(this`mousePressedOnLot, this`mousePressedOnPoint)
      ensures unchanged(this`highlightedLidx, this`highlightedPidx)
      ensures store.events == old(store.events) && store.loaded == old(store.loaded)
      ensures store.selectedIdx == old(store.selectedIdx) && store.saved == old(store.saved)
      ensures store.addable == old(store.addable) && store.editable == old(store.editable)
      ensures store.imagePath == old(store.imagePath) && store.jsonPath == old(store.jsonPath)
      ensures (ok <==> old(highlightedLidx).Some?) &&
        (ok ==>
          var l := old(highlightedLidx).value;
          mouseX == Some(x) && mouseY == Some(y) &&
          if l < |old(store.lots)|
          then store.lots == old(store.lots)[l := Lot(old(store.lots)[l].id,
                 Translate(old(store.lots)[l].quad, x - old(mouseX).value, y - old(mouseY).value))] && store.dirty
          else store.lots == old(store.lots) && store.dirty == old(store.dirty))
      ensures AllConvex(old(store.lots)) ==> AllConvex(store.lots)
    {
      if highlightedLidx.None? {
        return false;
      }
      var l := highlightedLidx.value;
      ghost var before := store.lots;
      var dx, dy := x - mouseX.value, y - mouseY.value;
      mouseX := Some(x);
      mouseY := Some(y);
      store.MoveLotByIdx(l, dx, dy);
      if AllConvex(before) && l < |before| {
        AllConvexTranslate(before, l, dx, dy);
      }
      return true;
    }

    /** The hover branch of `mouse_move_event_impl`. */
    method HoverAt(x: real, y: real, scale: real) returns (ok: bool)
      requires Valid() && !mousePressedOnPoint
      modifies this
      ensures ok ==> Valid()
      ensures unchanged(this`mousePressed, this`mousePressedX, this`mousePressedY)
      ensures unchanged(this`mousePressedOnLot, this`mousePressedOnPoint)
      ensures var h := HoverResult(store.lots, x, y, scale);
        (ok <==> h.Hover?) &&
        (ok ==> highlightedLidx == h.lidx && highlightedPidx == h.pidx && mouseX == Some(x) && mouseY == Some(y))
    {
      highlightedLidx := None;
      highlightedPidx := None;
      var lidxIn := store.IsPointInQuad(x, y);
      var nearest := store.NearestPoint(x, y);
      NearestVertexSpec(store.lots, x, y);
      if nearest.Some? {
        if scale == 0.0 {
          return false;
        }
        if Closer(nearest.value.sqDist, Epsilon / scale) {
          highlightedLidx := Some(nearest.value.lidx);
          highlightedPidx := Some(nearest.value.pidx);
        } else if lidxIn.Some? {
          highlightedLidx := lidxIn;
          highlightedPidx := None;
        }
      }
      mouseX := Some(x);
      mouseY := Some(y);
      return true;
    }

    /** `mouse_press_event_impl`: a left press records whether a lot and whether a
        vertex was highlighted and selects the highlighted lot; any press records its
        position. */
    method MousePressEvent(button: Button, x: real, y: real)
      requires Valid()
      modifies this, store
      ensures Valid()
      ensures mousePressedX == Some(x) && mousePressedY == Some(y)
      ensures mousePressed == (old(mousePressed) || button == LeftButton)
      ensures mousePressedOnLot == (old(mousePressedOnLot) || (button == LeftButton && old(highlightedLidx).Some?))
      ensures mousePressedOnPoint == (old(mousePressedOnPoint) || (button == LeftButton && old(highlightedPidx).Some?))
      ensures unchanged(this`highlightedLidx, this`highlightedPidx, this`mouseX, this`mouseY)
      ensures if button == LeftButton && mousePressedOnLot
        then store.selectedIdx == highlightedLidx && store.events == old(store.events) + [SelectedIdxChanged]
        else store.selectedIdx == old(store.selectedIdx) && store.events == old(store.events)
      ensures store.lots == old(store.lots) && store.dirty == old(store.dirty) && store.saved == old(store.saved)
      ensures store.addable == old(store.addable) && store.editable == old(store.editable)
    {
      if button == LeftButton {
        mousePressed := true;
        if highlightedLidx.Some? {
          mousePressedOnLot := true;
        }
        if highlightedPidx.Some? {
          mousePressedOnPoint := true;
        }
      }
      mousePressedX := Some(x);
      mousePressedY := Some(y);
      if button == LeftButton && mousePressedOnLot {
        store.SetSelectedIdx(highlightedLidx);
      }
    }

    /** `mouse_release_event_impl`: in draw mode, a left release after a press on empty
        canvas offers the add-lot dialog, and an accepted dialog appends the dragged
        rectangle; a left release clears the three press flags. */
    method MouseReleaseEvent(button: Button, x: real, y: real, answer: DialogAnswer)
      requires Valid()
      modifies this, store
      ensures Valid()
      ensures var offered := old(store.addable) && button == LeftButton &&
                             old(mousePressedX).Some? && old(mousePressedY).Some? &&
                             !old(mousePressedOnLot) && !old(mousePressedOnPoint);
        if offered && answer.DialogAccepted?
        then store.lots == old(store.lots) +
               [Lot(answer.lotId, PopupRectangle(old(mousePressedX).value, old(mousePressedY).value, x, y))] &&
             store.dirty && store.events == old(store.events) + [DataChanged]
        else store.lots == old(store.lots) && store.dirty == old(store.dirty) && store.events == old(store.events)
      ensures button == LeftButton ==> !mousePressed && !mousePressedOnLot && !mousePressedOnPoint
      ensures button != LeftButton ==> unchanged(this`mousePressed, this`mousePressedOnLot, this`mousePressedOnPoint)
      ensures unchanged(this`highlightedLidx, this`highlightedPidx, this`mouseX, this`mouseY)
      ensures unchanged(this`mousePressedX, this`mousePressedY)
      ensures store.selectedIdx == old(store.selectedIdx) && store.saved == old(store.saved)
      ensures store.addable == old(store.addable) && store.editable == old(store.editable)
      ensures AllConvex(old(store.lots)) ==> AllConvex(store.lots)
    {
      if store.addable && button == LeftButton && mousePressedX.Some? && mousePressedY.Some? &&
         !mousePressedOnLot && !mousePressedOnPoint {
        if answer.DialogAccepted? {
          var q := PopupRectangle(mousePressedX.value, mousePressedY.value, x, y);
          store.AddLot(answer.lotId, q[0], q[1], q[2], q[3], q[4], q[5], q[6], q[7]);
          assert [q[0], q[1], q[2], q[3], q[4], q[5], q[6], q[7]] == q;
        }
      }
      if button == LeftButton {
        mousePressed := false;
        mousePressedOnLot := false;
        mousePressedOnPoint := false;
      }
    }
  }

  // ---------------------------------------------------------------------------
  // Widget modes and "Extract frames"

  /** Ids of the crop lots, in order. */
  function Ids(lots: seq<Lot>): (r: seq<string>)
    ensures |r| == |lots| && forall i :: 0 <= i < |lots| ==> r[i] == lots[i].id
  {
    seq(|lots|, i requires 0 <= i < |lots| => lots[i].id)
  }

  /** `after` is `before` with an empty list added for every id of `ids` it lacks, and
      nothing else changed. */
  ghost predicate GainsEmptyLists<V>(before: map<string, seq<V>>, ids: seq<string>, after: map<string, seq<V>>)
  {
    (forall k :: k in after <==> k in before || k in ids) &&
    (forall k :: k in before ==> after[k] == before[k]) &&
    (forall k :: k in after && k !in before ==> after[k] == [])
  }

  /** The scene file the merge starts from: the existing one with its lots replaced,
      or a new version 0.3 file for the video. */
  function MergeBase(existing: Option<SceneData.SceneDocument>, videoPath: string, cropLots: seq<Lot>)
    : (d: SceneData.SceneDocument)
    ensures d.lots == cropLots
    ensures existing.Some? ==> d == existing.value.(lots := cropLots)
    ensures existing.None? ==> d.scenes == map[] && d.difficultFrames == Some(map[]) && d.version == "0.3"
  {
    if existing.Some? then existing.value.(lots := cropLots)
    else SceneData.SceneDocument("0.3", videoPath, cropLots, map[], Some(map[]))
  }

  /** The scene-file merge of `click_extract_frames_impl`: lots replaced by the crop
      lots, then every crop-lot id gains empty scene and difficult-frame lists where it
      has none, existing lists untouched. False for the KeyError of an existing file
      without "difficult_frames" (only reached when there is a crop lot). */
  method MergeSceneDocument(existing: Option<SceneData.SceneDocument>, videoPath: string, cropLots: seq<Lot>)
    returns (ok: bool, doc: SceneData.SceneDocument)
    ensures var base := MergeBase(existing, videoPath, cropLots);
      (ok <==> base.difficultFrames.Some? || |cropLots| == 0) &&
      (ok ==> doc.version == base.version && doc.videoPath == base.videoPath && doc.lots == cropLots &&
              GainsEmptyLists(base.scenes, Ids(cropLots), doc.scenes) &&
              (base.difficultFrames.Some? ==> (doc.difficultFrames.Some? &&
                 GainsEmptyLists(base.difficultFrames.value, Ids(cropLots), doc.difficultFrames.value))) &&
              (base.difficultFrames.None? ==> doc.difficultFrames.None?))
  {
    doc := MergeBase(existing, videoPath, cropLots);
    if doc.difficultFrames.None? && |cropLots| > 0 {
      return false, doc;
    }
    ghost var base := doc;
    var scenes := doc.scenes;
    var difficult := doc.difficultFrames;
    for i := 0 to |cropLots|
      invariant GainsEmptyLists(base.scenes, Ids(cropLots)[..i], scenes)
      invariant difficult.Some? <==> base.difficultFrames.Some?
      invariant difficult.Some? ==> GainsEmptyLists(base.difficultFrames.value, Ids(cropLots)[..i], difficult.value)
    {
      var id := cropLots[i].id;
      assert Ids(cropLots)[..i + 1] == Ids(cropLots)[..i] + [id];
      if id !in scenes {
        scenes := scenes[id := []];
      }
      if id !in difficult.value {
        difficult := Some(difficult.value[id := []]);
      }
    }
    assert Ids(cropLots)[..|cropLots|] == Ids(cropLots);
    doc := doc.(scenes := scenes, difficultFrames := difficult);
    return true, doc;
  }

  /** The conditions file "Extract frames" writes: version 0.3, the video, no
      conditions, no times, and the interval as a decimal string. */
  function FreshConditionsDocument(videoPath: string, interval: nat): (d: ConditionsData.ConditionsDocument)
    ensures d.version == "0.3" && d.videoPath == videoPath && d.conditions == []
    ensures d.initialTime.None? && d.dayStartTime.None? && d.nightStartTime.None?
    ensures d.interval.Some? && IsDigits(d.interval.value) && ParseDigits(d.interval.value) == interval
  {
    ParseNatToStr(interval);
    ConditionsData.ConditionsDocument("0.3", videoPath, [], None, None, None, Some(NatToStr(interval)))
  }

  /** The answers to the three dialogs of "Extract frames": the video file, the output
      directory (its contents matter only through the existing scene file) and the
      interval in seconds (the dialog allows 0 to 100). */
  datatype ExtractChoice = ExtractChoice(videoPath: string, interval: nat)

  datatype ExtractOutcome =
    | NotLoaded
    | NoLots
    | ExtractCancelled
    | ExtractCrashed
    | Written(sceneDoc: SceneData.SceneDocument, conditionsDoc: ConditionsData.ConditionsDocument)

  class DefineQuadWidget {
    const store: LotStore
    const canvas: Canvas
    var noneChecked: bool
    var drawChecked: bool

    ghost predicate Valid()
      reads this
    {
      canvas.store == store
    }

    /** A new widget starts in "None" mode. */
    constructor ()
      ensures Valid() && fresh(store) && fresh(canvas) && canvas.Valid()
      ensures noneChecked && !drawChecked && !store.addable && store.editable
      ensures store.lots == [] && !store.dirty && !store.loaded
    {
      var s := new LotStore();
      store := s;
      canvas := new Canvas(s);
      new;
      ClickNone();
    }

    /** `click_none_impl`: the "None" tool, in which lots can be edited but not added. */
    method ClickNone()
      modifies this, store
      ensures noneChecked && !drawChecked && !store.addable && store.editable
      ensures store.lots == old(store.lots) && store.dirty == old(store.dirty) && store.loaded == old(store.loaded)
      ensures store.selectedIdx == old(store.selectedIdx) && store.events == old(store.events)
    {
      noneChecked := false;
      drawChecked := false;
      noneChecked := true;
      store.SetAddable(false);
      store.SetEditable(true);
    }

    /** `click_draw_impl`: the "Draw" tool, in which lots can be added but not edited. */
    method ClickDraw()
      modifies this, store
      ensures !noneChecked && drawChecked && store.addable && !store.editable
      ensures store.lots == old(store.lots) && store.dirty == old(store.dirty) && store.loaded == old(store.loaded)
      ensures store.selectedIdx == old(store.selectedIdx) && store.events == old(store.events)
    {
      noneChecked := false;
      drawChecked := false;
      drawChecked := true;
      store.SetAddable(true);
      store.SetEditable(false);
    }

    /** `click_extract_frames_impl` up to the two files it writes: after the save
        question it stops when the lots were never loaded or saved, when there are no
        crop lots, or when a dialog is cancelled; otherwise it writes the merged scene
        file and a fresh conditions file. `existing` is the scene file already in the
        output directory, if any. */
    method ClickExtractFrames(answer: SaveAnswer, cropLots: seq<Lot>, choice: Option<ExtractChoice>,
                              existing: Option<SceneData.SceneDocument>)
      returns (outcome: ExtractOutcome)
      modifies store
      ensures store.saved == if old(store.dirty) && answer == AnswerYes then old(store.saved) + [old(store.Document())] else old(store.saved)
      ensures store.lots == old(store.lots)
      ensures var loaded := old(store.loaded) || (old(store.dirty) && answer == AnswerYes);
        if !loaded then outcome == NotLoaded
        else if cropLots == [] then outcome == NoLots
        else if choice.None? then outcome == ExtractCancelled
        else if existing.Some? && existing.value.difficultFrames.None? then outcome == ExtractCrashed
        else
          var base := MergeBase(existing, choice.value.videoPath, cropLots);
          outcome.Written? && base.difficultFrames.Some? &&
          outcome.sceneDoc.version == base.version && outcome.sceneDoc.videoPath == base.videoPath &&
          outcome.sceneDoc.lots == cropLots &&
          GainsEmptyLists(base.scenes, Ids(cropLots), outcome.sceneDoc.scenes) &&
          outcome.sceneDoc.difficultFrames.Some? &&
          GainsEmptyLists(base.difficultFrames.value, Ids(cropLots), outcome.sceneDoc.difficultFrames.value) &&
          outcome.conditionsDoc == FreshConditionsDocument(choice.value.videoPath, choice.value.interval)
      ensures store.imagePath == old(store.imagePath) && store.jsonPath == old(store.jsonPath)
      ensures store.selectedIdx == old(store.selectedIdx) && store.events == old(store.events)
      ensures store.addable == old(store.addable) && store.editable == old(store.editable)
    {
      store.MaySave(answer);
      if !store.loaded {
        return NotLoaded;
      }
      if cropLots == [] {
        return NoLots;
      }
      if choice.None? {
        return ExtractCancelled;
      }
      var ok, doc := MergeSceneDocument(existing, choice.value.videoPath, cropLots);
      if !ok {
        return ExtractCrashed;
      }
      return Written(doc, FreshConditionsDocument(choice.value.videoPath, choice.value.interval));
    }
  }
}
