/** ParkingLotAnnotTool/core/definequad/canvas.py: the zoom level of the scroll area
    around the picture, kept within 1..500 percent, and the routing of wheel events
    into zoom and scroll requests. */
module PictureCanvas {
  import MathUtil

  const MinZoom: int := 1
  const MaxZoom: int := 500

  datatype Orientation = Vertical | Horizontal

  /** The requests `wheelEvent_impl` emits. */
  datatype Request = ZoomRequest(delta: int) | ScrollRequest(delta: int, orientation: Orientation)

  /** Python's `int(x)` on a float: truncation toward zero. */
  function Trunc(x: real): (r: int)
    ensures x >= 0.0 ==> r as real <= x < r as real + 1.0
    ensures x < 0.0 ==> r as real - 1.0 < x <= r as real
  {
    if x >= 0.0 then x.Floor else -((-x).Floor)
  }

  /** The requests of one wheel event: with exactly Ctrl held and a vertical delta,
      one zoom request; otherwise one scroll request per non-zero component, vertical
      first. */
  function WheelRoute(ctrlOnly: bool, hDelta: int, vDelta: int): seq<Request>
  {
    if ctrlOnly && vDelta != 0 then [ZoomRequest(vDelta)]
    else
      (if vDelta != 0 then [ScrollRequest(vDelta, Vertical)] else []) +
      (if hDelta != 0 then [ScrollRequest(hDelta, Horizontal)] else [])
  }

  /** A zoom request carries the vertical delta and is never issued with a scroll; a
      scroll request carries its own component and each component is scrolled at most
      once. */
  lemma WheelRouteMeaning(ctrlOnly: bool, hDelta: int, vDelta: int)
    ensures var r := WheelRoute(ctrlOnly, hDelta, vDelta);
      (ctrlOnly && vDelta != 0 <==> exists i :: 0 <= i < |r| && r[i].ZoomRequest?) &&
      (ctrlOnly && vDelta != 0 ==> r == [ZoomRequest(vDelta)]) &&
      (!(ctrlOnly && vDelta != 0) ==>
        |r| == (if vDelta != 0 then 1 else 0) + (if hDelta != 0 then 1 else 0) &&
        (forall i :: 0 <= i < |r| ==> (r[i].ScrollRequest? &&
          r[i].delta == (if r[i].orientation == Vertical then vDelta else hDelta) && r[i].delta != 0)) &&
        (|r| == 2 ==> r[0].orientation == Vertical && r[1].orientation == Horizontal))
  {
    var r := WheelRoute(ctrlOnly, hDelta, vDelta);
    if ctrlOnly && vDelta != 0 {
      assert r[0].ZoomRequest?;
    } else {
      var vs := if vDelta != 0 then [ScrollRequest(vDelta, Vertical)] else [];
      var hs := if hDelta != 0 then [ScrollRequest(hDelta, Horizontal)] else [];
      assert r == vs + hs;
      assert forall i :: 0 <= i < |r| ==> r[i] in vs || r[i] in hs;
    }
  }

  class CanvasPicture {
    var hasPixmap: bool
    /** The painter scale `0.01 * value` of the last `set_zoom`. */
    var scale: real
    /** Requests emitted, oldest first. */
    var requests: seq<Request>

    constructor ()
      ensures !hasPixmap && scale == 1.0 && requests == []
    {
      hasPixmap := false;
      scale := 1.0;
      requests := [];
    }

    /** `set_picture`: either branch leaves a pixmap loaded. */
    method SetPicture()
      modifies this
      ensures hasPixmap && scale == old(scale) && requests == old(requests)
    {
      hasPixmap := true;
    }

    method SetZoom(value: int)
      modifies this`scale
      ensures scale == value as real / 100.0
    {
      scale := value as real / 100.0;
    }

    /** `wheelEvent_impl`; it does not look at the pixmap. */
    method WheelEvent(ctrlOnly: bool, hDelta: int, vDelta: int)
      modifies this`requests
      ensures requests == old(requests) + WheelRoute(ctrlOnly, hDelta, vDelta)
    {
      if ctrlOnly && vDelta != 0 {
        requests := requests + [ZoomRequest(vDelta)];
      } else {
        if vDelta != 0 {
          requests := requests + [ScrollRequest(vDelta, Vertical)];
        }
        if hDelta != 0 {
          requests := requests + [ScrollRequest(hDelta, Horizontal)];
        }
      }
    }
  }

  class CanvasScroll {
    const picture: CanvasPicture
    var zoom: int

    /** Zoom and painter scale agree once a zoom has been applied. */
    ghost predicate Applied()
      reads this, picture
    {
      MinZoom <= zoom <= MaxZoom && picture.scale == zoom as real / 100.0
    }

    constructor (picture: CanvasPicture)
      ensures this.picture == picture && zoom == 100
    {
      this.picture := picture;
      zoom := 100;
    }

    /** `set_zoom`: nothing without a pixmap; else clip(int(z), 1, 500), handed on to
        the picture. */
    method SetZoom(z: int)
      modifies this, picture
      ensures old(picture.hasPixmap) ==> zoom == MathUtil.Clip(z, MinZoom, MaxZoom) && Applied()
      ensures !old(picture.hasPixmap) ==> zoom == old(zoom) && picture.scale == old(picture.scale)
      ensures picture.hasPixmap == old(picture.hasPixmap) && picture.requests == old(picture.requests)
    {
      if !picture.hasPixmap {
        return;
      }
      zoom := z;
      zoom := MathUtil.Clip(zoom, MinZoom, MaxZoom);
      picture.SetZoom(zoom);
    }

    /** `add_zoom(increment)`: nothing without a pixmap; else clip(int(zoom +
        increment), 1, 500). The wheel passes a fractional increment, the toolbar 10. */
    method AddZoom(increment: real)
      modifies this, picture
      ensures old(picture.hasPixmap) ==>
        zoom == MathUtil.Clip(Trunc(old(zoom) as real + increment), MinZoom, MaxZoom) && Applied()
      ensures !old(picture.hasPixmap) ==> zoom == old(zoom) && picture.scale == old(picture.scale)
      ensures picture.hasPixmap == old(picture.hasPixmap) && picture.requests == old(picture.requests)
    {
      if !picture.hasPixmap {
        return;
      }
      zoom := Trunc(zoom as real + increment);
      zoom := MathUtil.Clip(zoom, MinZoom, MaxZoom);
      picture.SetZoom(zoom);
    }

    /** `fit_window`, given the scale `__scale_to_fit_window` computes from the widget
        and pixmap sizes: clip(int(100 * value), 1, 500). */
    method FitWindow(fitScale: real)
      modifies this, picture
      ensures old(picture.hasPixmap) ==> zoom == MathUtil.Clip(Trunc(100.0 * fitScale), MinZoom, MaxZoom) && Applied()
      ensures !old(picture.hasPixmap) ==> zoom == old(zoom) && picture.scale == old(picture.scale)
      ensures picture.hasPixmap == old(picture.hasPixmap) && picture.requests == old(picture.requests)
    {
      if !picture.hasPixmap {
        return;
      }
      var value := fitScale;
      zoom := Trunc(100.0 * value);
      zoom := MathUtil.Clip(zoom, MinZoom, MaxZoom);
      picture.SetZoom(zoom);
    }

    /** `zoom_request_impl`: a wheel delta of one notch (120) zooms by 10 percent. The
        scroll-bar repositioning around the cursor is not modelled. */
    method ZoomRequestEvent(delta: int)
      modifies this, picture
      ensures old(picture.hasPixmap) ==>
        zoom == MathUtil.Clip(Trunc(old(zoom) as real + NotchIncrement(delta)), MinZoom, MaxZoom) && Applied()
      ensures !old(picture.hasPixmap) ==> zoom == old(zoom) && picture.scale == old(picture.scale)
      ensures picture.hasPixmap == old(picture.hasPixmap) && picture.requests == old(picture.requests)
    {
      if !picture.hasPixmap {
        return;
      }
      AddZoom(NotchIncrement(delta));
    }
  }

  /** `scale * units` of `zoom_request_impl`: 10 * delta / (8 * 15). */
  function NotchIncrement(delta: int): (r: real)
    ensures delta == 120 ==> r == 10.0
    ensures delta == -120 ==> r == -10.0
  {
    10.0 * (delta as real / (8 * 15) as real)
  }

  /** One notch up from any zoom in range moves by exactly 10 within the range, and
      stops at the upper end. */
  lemma NotchZoomsByTen(zoom: int)
    requires MinZoom <= zoom <= MaxZoom
    ensures MathUtil.Clip(Trunc(zoom as real + NotchIncrement(120)), MinZoom, MaxZoom) ==
      if zoom + 10 <= MaxZoom then zoom + 10 else MaxZoom
    ensures MathUtil.Clip(Trunc(zoom as real + NotchIncrement(-120)), MinZoom, MaxZoom) ==
      if zoom - 10 >= MinZoom then zoom - 10 else MinZoom
  {
    assert Trunc(zoom as real + 10.0) == zoom + 10;
    if zoom - 10 >= 0 {
      assert Trunc(zoom as real - 10.0) == zoom - 10;
    } else {
      assert Trunc(zoom as real - 10.0) == zoom - 10;
    }
  }
}
