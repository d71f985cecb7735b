/** ParkingLotAnnotTool/core/definequad/imgcrop.py: the bounding box of a lot's
    quadrilateral, the map of its corners into the 224 x 224 model image, and the
    frame loop of the cropping worker with its cancel flag, writes and progress. */
module ImgCrop {
  import opened Common
  import opened LotsData
  import DefineQuad

  const ModelWidth: nat := 224
  const ModelHeight: nat := 224

  type Contour = seq<(real, real)>

  // ---------------------------------------------------------------------------
  // min(contours, key=...) and max(contours, key=...)

  /** The index `min(contours, key=lambda item: item[0])` returns: the first point of
      least x among the first n. */
  function ArgMinX(cs: Contour, n: nat): (k: nat)
    requires 0 < n <= |cs|
    ensures k < n
    ensures forall i :: 0 <= i < n ==> cs[k].0 <= cs[i].0
    ensures forall i :: 0 <= i < k ==> cs[k].0 < cs[i].0
  {
    if n == 1 then 0
    else
      var k := ArgMinX(cs, n - 1);
      if cs[n - 1].0 < cs[k].0 then n - 1 else k
  }

  /** The index `max(contours, key=lambda item: item[0])` returns: the first point of
      greatest x among the first n. */
  function ArgMaxX(cs: Contour, n: nat): (k: nat)
    requires 0 < n <= |cs|
    ensures k < n
    ensures forall i :: 0 <= i < n ==> cs[i].0 <= cs[k].0
    ensures forall i :: 0 <= i < k ==> cs[i].0 < cs[k].0
  {
    if n == 1 then 0
    else
      var k := ArgMaxX(cs, n - 1);
      if cs[n - 1].0 > cs[k].0 then n - 1 else k
  }

  /** The first point of least y among the first n. */
  function ArgMinY(cs: Contour, n: nat): (k: nat)
    requires 0 < n <= |cs|
    ensures k < n
    ensures forall i :: 0 <= i < n ==> cs[k].1 <= cs[i].1
  {
    if n == 1 then 0
    else
      var k := ArgMinY(cs, n - 1);
      if cs[n - 1].1 < cs[k].1 then n - 1 else k
  }

  /** The first point of greatest y among the first n. */
  function ArgMaxY(cs: Contour, n: nat): (k: nat)
    requires 0 < n <= |cs|
    ensures k < n
    ensures forall i :: 0 <= i < n ==> cs[i].1 <= cs[k].1
  {
    if n == 1 then 0
    else
      var k := ArgMaxY(cs, n - 1);
      if cs[n - 1].1 > cs[k].1 then n - 1 else k
  }

  /** `get_xmin` and `get_xmax`: the least and the greatest x of the points. */
  function XMin(cs: Contour): (r: real)
    requires |cs| > 0
    ensures (exists i :: 0 <= i < |cs| && cs[i].0 == r) && forall i :: 0 <= i < |cs| ==> r <= cs[i].0
  {
    cs[ArgMinX(cs, |cs|)].0
  }

  function XMax(cs: Contour): (r: real)
    requires |cs| > 0
    ensures (exists i :: 0 <= i < |cs| && cs[i].0 == r) && forall i :: 0 <= i < |cs| ==> cs[i].0 <= r
  {
    cs[ArgMaxX(cs, |cs|)].0
  }

  /** `get_ymin` and `get_ymax` as written: they select by x, so they give the y of the
      first point of least x and of the first point of greatest x. */
  function YMinAsWritten(cs: Contour): real
    requires |cs| > 0
  {
    cs[ArgMinX(cs, |cs|)].1
  }

  function YMaxAsWritten(cs: Contour): real
    requires |cs| > 0
  {
    cs[ArgMaxX(cs, |cs|)].1
  }

  /** The evidently intended `get_ymin` and `get_ymax`: the least and the greatest y. */
  function YMin(cs: Contour): (r: real)
    requires |cs| > 0
    ensures (exists i :: 0 <= i < |cs| && cs[i].1 == r) && forall i :: 0 <= i < |cs| ==> r <= cs[i].1
  {
    cs[ArgMinY(cs, |cs|)].1
  }

  function YMax(cs: Contour): (r: real)
    requires |cs| > 0
    ensures (exists i :: 0 <= i < |cs| && cs[i].1 == r) && forall i :: 0 <= i < |cs| ==> cs[i].1 <= r
  {
    cs[ArgMaxY(cs, |cs|)].1
  }

  // ---------------------------------------------------------------------------
  // get_resized_contours

  /** The body of `get_resized_contours` once the box is known: None for the
      ZeroDivisionError of a zero height or width, else every point shifted by the
      offset (the box corner, or the origin) and scaled by size / box extent. */
  function Rescaled(cs: Contour, size: (nat, nat), offset: bool, xmin: real, xmax: real, ymin: real, ymax: real)
    : (r: Option<Contour>)
    ensures r.None? <==> ymax - ymin == 0.0 || xmax - xmin == 0.0
    ensures r.Some? ==> |r.value| == |cs| && forall i :: 0 <= i < |cs| ==>
      r.value[i] == Scaled(cs[i], if offset then xmin else 0.0, if offset then ymin else 0.0,
                           size.0 as real / (xmax - xmin), size.1 as real / (ymax - ymin))
  {
    var height := ymax - ymin;
    var width := xmax - xmin;
    if height == 0.0 || width == 0.0 then None
    else
      var xOffset := if offset then xmin else 0.0;
      var yOffset := if offset then ymin else 0.0;
      var hScale := size.1 as real / height;
      var wScale := size.0 as real / width;
      Some(seq(|cs|, i requires 0 <= i < |cs| => Scaled(cs[i], xOffset, yOffset, wScale, hScale)))
  }

  /** One point shifted by the offset and scaled. */
  function Scaled(p: (real, real), xOffset: real, yOffset: real, wScale: real, hScale: real): (real, real)
  {
    ((p.0 - xOffset) * wScale, (p.1 - yOffset) * hScale)
  }

  /** `get_resized_contours(contours, size, offset)` as written. */
  function ResizedContoursAsWritten(cs: Contour, size: (nat, nat), offset: bool): Option<Contour>
    requires |cs| > 0
  {
    Rescaled(cs, size, offset, XMin(cs), XMax(cs), YMinAsWritten(cs), YMaxAsWritten(cs))
  }

  /** `get_resized_contours` with the intended y bounds. */
  function ResizedContours(cs: Contour, size: (nat, nat), offset: bool): Option<Contour>
    requires |cs| > 0
  {
    Rescaled(cs, size, offset, XMin(cs), XMax(cs), YMin(cs), YMax(cs))
  }

  lemma NonNegativeProduct(x: real, y: real)
    requires x >= 0.0 && y >= 0.0
    ensures x * y >= 0.0
  {
  }

  /** 0 <= v - lo <= hi - lo maps to [0, size] under scaling by size / (hi - lo). */
  lemma ScaleIntoRange(v: real, lo: real, hi: real, size: real)
    requires lo <= v <= hi && lo < hi && size >= 0.0
    ensures 0.0 <= (v - lo) * (size / (hi - lo)) <= size
    ensures v == lo ==> (v - lo) * (size / (hi - lo)) == 0.0
    ensures v == hi ==> (v - lo) * (size / (hi - lo)) == size
  {
    var s := size / (hi - lo);
    assert s >= 0.0;
    NonNegativeProduct(v - lo, s);
    NonNegativeProduct(hi - v, s);
    assert (hi - lo) * s == size;
    assert (v - lo) * s + (hi - v) * s == (hi - lo) * s;
  }

  /** With the offset and a box of positive extent that holds every point, each point
      lands in [0, width] x [0, height] of the given size, the box's edges on its edges. */
  lemma RescaledFillsBox(cs: Contour, size: (nat, nat), xmin: real, xmax: real, ymin: real, ymax: real)
    requires xmin < xmax && ymin < ymax
    requires forall i :: 0 <= i < |cs| ==> xmin <= cs[i].0 <= xmax && ymin <= cs[i].1 <= ymax
    ensures var r := Rescaled(cs, size, true, xmin, xmax, ymin, ymax);
      r.Some? && |r.value| == |cs| && forall i :: 0 <= i < |cs| ==>
        0.0 <= r.value[i].0 <= size.0 as real && 0.0 <= r.value[i].1 <= size.1 as real &&
        (cs[i].0 == xmin ==> r.value[i].0 == 0.0) &&
        (cs[i].0 == xmax ==> r.value[i].0 == size.0 as real) &&
        (cs[i].1 == ymin ==> r.value[i].1 == 0.0) &&
        (cs[i].1 == ymax ==> r.value[i].1 == size.1 as real)
  {
    var r := Rescaled(cs, size, true, xmin, xmax, ymin, ymax);
    forall i | 0 <= i < |cs|
      ensures 0.0 <= r.value[i].0 <= size.0 as real && 0.0 <= r.value[i].1 <= size.1 as real
      ensures cs[i].0 == xmin ==> r.value[i].0 == 0.0
      ensures cs[i].0 == xmax ==> r.value[i].0 == size.0 as real
      ensures cs[i].1 == ymin ==> r.value[i].1 == 0.0
      ensures cs[i].1 == ymax ==> r.value[i].1 == size.1 as real
    {
      var ws, hs := size.0 as real / (xmax - xmin), size.1 as real / (ymax - ymin);
      assert r.value[i] == Scaled(cs[i], xmin, ymin, ws, hs);
      assert r.value[i].0 == (cs[i].0 - xmin) * ws && r.value[i].1 == (cs[i].1 - ymin) * hs;
      ScaleIntoRange(cs[i].0, xmin, xmax, size.0 as real);
      ScaleIntoRange(cs[i].1, ymin, ymax, size.1 as real);
    }
  }

  /** With the offset, the bounding box is mapped onto [0, width] x [0, height] of the
      given size: every point lands inside it, a point of least x at x = 0 and a point
      of greatest x at x = width (likewise for y); None exactly for a box of zero width
      or height. */
  lemma ResizedContoursFillBox(cs: Contour, size: (nat, nat))
    requires |cs| > 0
    ensures var r := ResizedContours(cs, size, true);
      (r.None? <==> XMin(cs) == XMax(cs) || YMin(cs) == YMax(cs)) &&
      (r.Some? ==> |r.value| == |cs| && forall i :: 0 <= i < |cs| ==>
        0.0 <= r.value[i].0 <= size.0 as real && 0.0 <= r.value[i].1 <= size.1 as real &&
        (cs[i].0 == XMin(cs) ==> r.value[i].0 == 0.0) &&
        (cs[i].0 == XMax(cs) ==> r.value[i].0 == size.0 as real) &&
        (cs[i].1 == YMin(cs) ==> r.value[i].1 == 0.0) &&
        (cs[i].1 == YMax(cs) ==> r.value[i].1 == size.1 as real))
  {
    var xmin, xmax, ymin, ymax := XMin(cs), XMax(cs), YMin(cs), YMax(cs);
    assert xmin <= cs[0].0 <= xmax && ymin <= cs[0].1 <= ymax;
    if xmin != xmax && ymin != ymax {
      RescaledFillsBox(cs, size, xmin, xmax, ymin, ymax);
    }
  }

  /** The y bounds as written see no height in an axis-aligned rectangle listed from
      its top-left corner clockwise (its first two corners share the least y), so with
      positive width it fails with a ZeroDivisionError; the intended bounds map it onto
      the whole image of the given size. */
  lemma {:induction false} AsWrittenRejectsRectangle(xmin: real, ymin: real, xmax: real, ymax: real, size: (nat, nat))
    requires xmin < xmax && ymin <= ymax
    ensures var cs := [(xmin, ymin), (xmax, ymin), (xmax, ymax), (xmin, ymax)];
      YMinAsWritten(cs) == YMaxAsWritten(cs) && ResizedContoursAsWritten(cs, size, true).None?
    ensures var cs := [(xmin, ymin), (xmax, ymin), (xmax, ymax), (xmin, ymax)];
      ymin < ymax ==> (ResizedContours(cs, size, true) ==
        Some([(0.0, 0.0), (size.0 as real, 0.0), (size.0 as real, size.1 as real), (0.0, size.1 as real)]))
  {
    var cs := [(xmin, ymin), (xmax, ymin), (xmax, ymax), (xmin, ymax)];
    assert ArgMinX(cs, 2) == 0 && ArgMinX(cs, 3) == 0 && ArgMinX(cs, 4) == 0;
    assert ArgMaxX(cs, 2) == 1 && ArgMaxX(cs, 3) == 1 && ArgMaxX(cs, 4) == 1;
    if ymin < ymax {
      assert XMin(cs) == xmin && XMax(cs) == xmax && YMin(cs) == ymin && YMax(cs) == ymax;
      ResizedContoursFillBox(cs, size);
      var r := ResizedContours(cs, size, true);
      assert r.Some? && |r.value| == 4;
      assert r.value == [(0.0, 0.0), (size.0 as real, 0.0), (size.0 as real, size.1 as real), (0.0, size.1 as real)];
    }
  }

  /** Every lot the canvas draws is such a rectangle: with positive width its crop
      fails as written, and with positive height too the intended bounds send its
      corners to the corners of the 224 x 224 model image. */
  lemma AsWrittenRejectsDrawnRectangles(px: real, py: real, x: real, y: real)
    requires px != x
    ensures var cs := Points(DefineQuad.PopupRectangle(px, py, x, y));
      ResizedContoursAsWritten(cs, (ModelWidth, ModelHeight), true).None?
    ensures var cs := Points(DefineQuad.PopupRectangle(px, py, x, y));
      py != y ==> (ResizedContours(cs, (ModelWidth, ModelHeight), true) ==
        Some([(0.0, 0.0), (ModelWidth as real, 0.0), (ModelWidth as real, ModelHeight as real), (0.0, ModelHeight as real)]))
  {
    var xmin := if px <= x then px else x;
    var ymin := if py <= y then py else y;
    var xmax := if px <= x then x else px;
    var ymax := if py <= y then y else py;
    assert Points(DefineQuad.PopupRectangle(px, py, x, y)) == [(xmin, ymin), (xmax, ymin), (xmax, ymax), (xmin, ymax)];
    AsWrittenRejectsRectangle(xmin, ymin, xmax, ymax, (ModelWidth, ModelHeight));
  }

  // ---------------------------------------------------------------------------
  // The worker

  /** Integer progress after 0-based frame i of total: (i / total) * 100 truncated. */
  function Progress(i: nat, total: nat): (p: nat)
    requires i < total
    ensures p < 100
  {
    (i * 100) / total
  }

  /** Progress never goes down and never reaches 100. */
  lemma ProgressMonotone(i: nat, j: nat, total: nat)
    requires i <= j < total
    ensures Progress(i, total) <= Progress(j, total) < 100
  {
    DivMonotone(i * 100, j * 100, total);
  }

  lemma {:induction false} DivMonotone(a: nat, b: nat, d: nat)
    requires a <= b && d > 0
    ensures a / d <= b / d
  {
    if a / d > b / d {
      assert (a / d) * d <= a;
      assert b < (b / d + 1) * d;
      MulStepUp(b / d + 1, a / d, d);
    }
  }

  lemma MulStepUp(m: nat, n: nat, d: nat)
    requires m <= n
    ensures m * d <= n * d
  {
  }

  datatype CropEvent = ProgressEvent(percent: nat) | Finished | Canceled

  /** A crop written to `<lot id>/<frame file name>`. */
  datatype Write = Write(lotId: string, frameName: string)

  /** The writes for the frames fs, one per lot per frame, frame by frame. */
  function WritesFor(lots: seq<Lot>, fs: seq<string>): (r: seq<Write>)
  {
    if |fs| == 0 then []
    else WritesFor(lots, fs[..|fs| - 1]) + FrameWrites(lots, fs[|fs| - 1])
  }

  function FrameWrites(lots: seq<Lot>, f: string): (r: seq<Write>)
    ensures |r| == |lots| && forall j :: 0 <= j < |lots| ==> r[j] == Write(lots[j].id, f)
  {
    seq(|lots|, j requires 0 <= j < |lots| => Write(lots[j].id, f))
  }

  /** Every frame writes once per lot. */
  lemma {:induction false} WritesForLength(lots: seq<Lot>, fs: seq<string>)
    ensures |WritesFor(lots, fs)| == |fs| * |lots|
  {
    if |fs| > 0 {
      WritesForLength(lots, fs[..|fs| - 1]);
      assert (|fs| - 1) * |lots| + |lots| == |fs| * |lots|;
    }
  }

  /** Frame k of fs is written as write k * |lots| + j for lot j. */
  lemma {:induction false} WritesForAt(lots: seq<Lot>, fs: seq<string>, k: nat, j: nat)
    requires k < |fs| && j < |lots|
    ensures k * |lots| + j < |WritesFor(lots, fs)|
    ensures WritesFor(lots, fs)[k * |lots| + j] == Write(lots[j].id, fs[k])
  {
    var n := |fs| - 1;
    WritesForLength(lots, fs);
    WritesForLength(lots, fs[..n]);
    assert fs[..n][..] == fs[..n];
    if k < n {
      WritesForAt(lots, fs[..n], k, j);
      assert k * |lots| + j < n * |lots| by { MulStepUp(k + 1, n, |lots|); }
    } else {
      assert |WritesFor(lots, fs[..n])| == k * |lots|;
    }
  }

  /** The progress events of the first k frames of total. */
  function ProgressEvents(k: nat, total: nat): (r: seq<CropEvent>)
    requires k <= total
    ensures |r| == k && forall i :: 0 <= i < k ==> r[i] == ProgressEvent(Progress(i, total))
  {
    seq(k, i requires 0 <= i < k => ProgressEvent(Progress(i, total)))
  }

  /** One more frame adds its writes at the end. */
  lemma WritesForStep(lots: seq<Lot>, fs: seq<string>, i: nat)
    requires i < |fs|
    ensures WritesFor(lots, fs[..i + 1]) == WritesFor(lots, fs[..i]) + FrameWrites(lots, fs[i])
  {
    assert fs[..i + 1][..i] == fs[..i];
  }

  lemma AppendAssoc<T>(a: seq<T>, b: seq<T>, c: seq<T>)
    ensures (a + b) + c == a + (b + c)
  {
  }

  /** One more frame adds its progress event at the end. */
  lemma ProgressEventsStep(i: nat, total: nat)
    requires i < total
    ensures ProgressEvents(i + 1, total) == ProgressEvents(i, total) + [ProgressEvent((i * 100) / total)]
  {
    assert ProgressEvents(i + 1, total)[i] == ProgressEvent(Progress(i, total));
  }

  /** The index of the first iteration whose check sees the cancel flag set. */
  function CancelIndex(flagSet: bool, cancelSeen: seq<bool>, i: nat): (k: nat)
    requires i <= |cancelSeen|
    ensures i <= k <= |cancelSeen|
    ensures !flagSet ==> forall j :: i <= j < k ==> !cancelSeen[j]
    ensures !flagSet && k < |cancelSeen| ==> cancelSeen[k]
    ensures flagSet ==> k == i
    decreases |cancelSeen| - i
  {
    if flagSet || i == |cancelSeen| || cancelSeen[i] then i
    else CancelIndex(flagSet, cancelSeen, i + 1)
  }

  /** The first iteration that sees the flag is i when the flag comes into play exactly
      there. */
  lemma CancelIndexIs(flagSet: bool, cancelSeen: seq<bool>, i: nat)
    requires i <= |cancelSeen| && (flagSet ==> i == 0)
    requires forall j :: 0 <= j < i ==> !cancelSeen[j]
    requires i < |cancelSeen| ==> flagSet || cancelSeen[i]
    ensures CancelIndex(flagSet, cancelSeen, 0) == i
  {
  }

  /** A lot whose crop can be computed: its corners neither share one x nor share one y,
      so `get_resized_contours` does not divide by zero. */
  predicate Croppable(l: Lot)
  {
    var q := l.quad;
    !(q[0] == q[2] == q[4] == q[6]) && !(q[1] == q[3] == q[5] == q[7])
  }

  /** The crop of a lot raises exactly when its bounding box has no width or no height. */
  lemma CroppableIsResized(l: Lot)
    ensures Croppable(l) <==> ResizedContours(Points(l.quad), (ModelWidth, ModelHeight), true).Some?
  {
    var cs := Points(l.quad);
    assert cs[0].0 == l.quad[0] && cs[1].0 == l.quad[2] && cs[2].0 == l.quad[4] && cs[3].0 == l.quad[6];
    assert cs[0].1 == l.quad[1] && cs[1].1 == l.quad[3] && cs[2].1 == l.quad[5] && cs[3].1 == l.quad[7];
  }

  /** For each lot whether its crop can be computed. */
  function CroppableLots(lots: seq<Lot>): (r: seq<bool>)
    ensures |r| == |lots|
  {
    seq(|lots|, i requires 0 <= i < |lots| => Croppable(lots[i]))
  }

  /** The first index from j on holding false, or |bs| when there is none. */
  function FirstFalse(bs: seq<bool>, j: nat): (b: nat)
    requires j <= |bs|
    ensures j <= b <= |bs|
    ensures forall i :: j <= i < b ==> bs[i]
    ensures b < |bs| ==> !bs[b]
    decreases |bs| - j
  {
    if j == |bs| || !bs[j] then j else FirstFalse(bs, j + 1)
  }

  /** The first false is at b when everything before b holds and b is false or the end. */
  lemma {:induction false} FirstFalseIs(bs: seq<bool>, j: nat, b: nat)
    requires j <= b <= |bs| && (forall i :: j <= i < b ==> bs[i]) && (b < |bs| ==> !bs[b])
    ensures FirstFalse(bs, j) == b
    decreases b - j
  {
    if j < b {
      FirstFalseIs(bs, j + 1, b);
    }
  }

  /** Whether `imgcrop` of lot j returns instead of raising. */
  function CropSucceeds(lots: seq<Lot>, j: nat): (ok: bool)
    requires j < |lots|
    ensures ok == CroppableLots(lots)[j]
  {
    CroppableIsResized(lots[j]);
    ResizedContours(Points(lots[j].quad), (ModelWidth, ModelHeight), true).Some?
  }

  lemma FrameWritesStep(lots: seq<Lot>, j: nat, f: string)
    requires j < |lots|
    ensures FrameWrites(lots[..j + 1], f) == FrameWrites(lots[..j], f) + [Write(lots[j].id, f)]
  {
  }

  /** The first lot whose crop raises, or |lots| when none does. */
  function FirstUncroppable(lots: seq<Lot>): (b: nat)
    ensures b <= |lots|
  {
    FirstFalse(CroppableLots(lots), 0)
  }

  /** Every lot before the first uncroppable one can be cropped, and that one cannot. */
  lemma FirstUncroppableMeaning(lots: seq<Lot>)
    ensures var b := FirstUncroppable(lots);
      (forall i :: 0 <= i < b ==> Croppable(lots[i])) && (b < |lots| ==> !Croppable(lots[b]))
  {
    var bs, b := CroppableLots(lots), FirstUncroppable(lots);
    assert forall i :: 0 <= i < |lots| ==> bs[i] == Croppable(lots[i]);
  }

  /** Whether `run` returns normally: it raises at the first frame it processes when some
      lot cannot be cropped. */
  function RunOk(lots: seq<Lot>, frames: seq<string>, flagSet: bool, cancelSeen: seq<bool>): bool
    requires |cancelSeen| == |frames|
  {
    CancelIndex(flagSet, cancelSeen, 0) == 0 || FirstUncroppable(lots) == |lots|
  }

  /** The crops `run` writes: those of the first k frames, or on a raise those of frame
      0 up to the lot that raises. */
  function RunWrites(lots: seq<Lot>, frames: seq<string>, flagSet: bool, cancelSeen: seq<bool>): seq<Write>
    requires |cancelSeen| == |frames|
  {
    var k := CancelIndex(flagSet, cancelSeen, 0);
    if RunOk(lots, frames, flagSet, cancelSeen) then WritesFor(lots, frames[..k])
    else FrameWrites(lots[..FirstUncroppable(lots)], frames[0])
  }

  /** The signals `run` emits: the progress of the first k frames and then `canceled` or
      `finished`; nothing at all on a raise. */
  function RunEvents(lots: seq<Lot>, frames: seq<string>, flagSet: bool, cancelSeen: seq<bool>): seq<CropEvent>
    requires |cancelSeen| == |frames|
  {
    var k := CancelIndex(flagSet, cancelSeen, 0);
    if RunOk(lots, frames, flagSet, cancelSeen)
    then ProgressEvents(k, |frames|) + (if k < |frames| then [Canceled] else [Finished])
    else []
  }

  /** The outcome of a run whose check at frame i sees the flag. */
  lemma RunCanceledAt(lots: seq<Lot>, frames: seq<string>, flagSet: bool, cancelSeen: seq<bool>, i: nat)
    requires |cancelSeen| == |frames| && i < |frames| && CancelIndex(flagSet, cancelSeen, 0) == i
    requires i > 0 ==> FirstUncroppable(lots) == |lots|
    ensures RunOk(lots, frames, flagSet, cancelSeen)
    ensures RunWrites(lots, frames, flagSet, cancelSeen) == WritesFor(lots, frames[..i])
    ensures RunEvents(lots, frames, flagSet, cancelSeen) == ProgressEvents(i, |frames|) + [Canceled]
  {
  }

  /** The outcome of a run that raises at its first frame. */
  lemma RunRaised(lots: seq<Lot>, frames: seq<string>, flagSet: bool, cancelSeen: seq<bool>)
    requires |cancelSeen| == |frames| && |frames| > 0 && !flagSet && !cancelSeen[0]
    requires FirstUncroppable(lots) < |lots|
    ensures !RunOk(lots, frames, flagSet, cancelSeen)
    ensures RunWrites(lots, frames, flagSet, cancelSeen) == FrameWrites(lots[..FirstUncroppable(lots)], frames[0])
    ensures RunEvents(lots, frames, flagSet, cancelSeen) == []
  {
    assert CancelIndex(flagSet, cancelSeen, 0) > 0;
  }

  /** The outcome of a run that processes every frame. */
  lemma RunFinished(lots: seq<Lot>, frames: seq<string>, flagSet: bool, cancelSeen: seq<bool>)
    requires |cancelSeen| == |frames| && CancelIndex(flagSet, cancelSeen, 0) == |frames|
    requires |frames| > 0 ==> FirstUncroppable(lots) == |lots|
    ensures RunOk(lots, frames, flagSet, cancelSeen)
    ensures RunWrites(lots, frames, flagSet, cancelSeen) == WritesFor(lots, frames[..|frames|])
    ensures RunEvents(lots, frames, flagSet, cancelSeen) == ProgressEvents(|frames|, |frames|) + [Finished]
  {
  }

  /** The crops of one frame, lot by lot, up to the first lot whose crop raises. */
  method CropLots(lots: seq<Lot>, f: string) returns (ok: bool, saved: seq<Write>)
    ensures var b := FirstUncroppable(lots);
      (ok <==> b == |lots|) && saved == FrameWrites(lots[..b], f)
  {
    ghost var bs := CroppableLots(lots);
    saved := [];
    for j := 0 to |lots|
      invariant FirstFalse(bs, 0) == FirstFalse(bs, j)
      invariant saved == FrameWrites(lots[..j], f)
    {
      var cropped := CropSucceeds(lots, j);
      if !cropped {
        return false, saved;
      }
      FrameWritesStep(lots, j, f);
      saved := saved + [Write(lots[j].id, f)];
    }
    assert lots[..|lots|] == lots;
    ok := true;
  }

  class ImageCropWorker {
    /** `data['lots']` of the scene file. */
    const lots: seq<Lot>
    var isCanceled: bool
    /** Emitted signals, oldest first. */
    var events: seq<CropEvent>
    /** Lot directories created, in order. */
    var dirs: seq<string>
    /** Cropped images written, in order. */
    var writes: seq<Write>

    /** `__init__`: emits progress 0 and keeps the lots of the scene file. */
    constructor (lots: seq<Lot>)
      ensures this.lots == lots && !isCanceled
      ensures events == [ProgressEvent(0)] && dirs == [] && writes == []
    {
      this.lots := lots;
      isCanceled := false;
      events := [ProgressEvent(0)];
      dirs := [];
      writes := [];
    }

    method Cancel()
      modifies this
      ensures isCanceled && events == old(events) && dirs == old(dirs) && writes == old(writes)
    {
      isCanceled := true;
    }

    /** `run` over the raw frame files `frames`, where cancelSeen[i] says whether the
        other thread has called `cancel` by the time iteration i tests the flag. The
        first k frames are processed, k being the first iteration that sees the flag;
        each writes one crop per lot and emits its progress; then `canceled` if a check
        saw the flag, `finished` otherwise (at once for no frames). ok is false where
        `imgcrop` raises, which happens at the first processed frame when some lot
        cannot be cropped. */
    method Run(frames: seq<string>, cancelSeen: seq<bool>) returns (ok: bool)
      requires |cancelSeen| == |frames|
      modifies this
      ensures ok == RunOk(lots, frames, old(isCanceled), cancelSeen)
      ensures dirs == old(dirs) + DefineQuad.Ids(lots)
      ensures writes == old(writes) + RunWrites(lots, frames, old(isCanceled), cancelSeen)
      ensures events == old(events) + RunEvents(lots, frames, old(isCanceled), cancelSeen)
    {
      ghost var flag0, dirs0, writes0, events0 := isCanceled, dirs, writes, events;
      MakeDirs();
      var totalFrames := |frames|;
      for i := 0 to totalFrames
        invariant i == 0 ==> isCanceled == flag0
        invariant i > 0 ==> !flag0 && !isCanceled && FirstUncroppable(lots) == |lots|
        invariant forall j :: 0 <= j < i ==> !cancelSeen[j]
        invariant writes == writes0 + WritesFor(lots, frames[..i])
        invariant events == events0 + ProgressEvents(i, totalFrames)
        invariant dirs == dirs0 + DefineQuad.Ids(lots)
      {
        if cancelSeen[i] {
          isCanceled := true;
        }
        if isCanceled {
          CancelIndexIs(flag0, cancelSeen, i);
          RunCanceledAt(lots, frames, flag0, cancelSeen, i);
          events := events + [Canceled];
          return true;
        }
        ok := ProcessFrame(frames, i);
        if !ok {
          RunRaised(lots, frames, flag0, cancelSeen);
          assert frames[..0] == [];
          return;
        }
        WritesForStep(lots, frames, i);
        ProgressEventsStep(i, totalFrames);
        AppendAssoc(writes0, WritesFor(lots, frames[..i]), FrameWrites(lots, frames[i]));
        AppendAssoc(events0, ProgressEvents(i, totalFrames), [ProgressEvent(Progress(i, totalFrames))]);
      }
      CancelIndexIs(flag0, cancelSeen, totalFrames);
      RunFinished(lots, frames, flag0, cancelSeen);
      assert frames[..totalFrames] == frames;
      events := events + [Finished];
      ok := true;
    }

    /** One turn of the frame loop that is not canceled: the crops of the frame, then
        its progress; on a raise only the crops before the failing lot. */
    method ProcessFrame(frames: seq<string>, i: nat) returns (ok: bool)
      requires i < |frames|
      modifies this`writes, this`events
      ensures var b := FirstUncroppable(lots);
        (ok <==> b == |lots|) &&
        writes == old(writes) + FrameWrites(lots[..b], frames[i]) &&
        events == old(events) + (if ok then [ProgressEvent(Progress(i, |frames|))] else [])
    {
      ok := CropFrame(frames[i]);
      if !ok {
        return;
      }
      var progress := (i * 100) / |frames|;
      events := events + [ProgressEvent(progress)];
    }

    /** The `os.makedirs` loop: one directory per lot id, in order. */
    method MakeDirs()
      modifies this`dirs
      ensures dirs == old(dirs) + DefineQuad.Ids(lots)
    {
      for j := 0 to |lots|
        invariant dirs == old(dirs) + DefineQuad.Ids(lots)[..j]
      {
        assert DefineQuad.Ids(lots)[..j + 1] == DefineQuad.Ids(lots)[..j] + [lots[j].id];
        dirs := dirs + [lots[j].id];
      }
      assert DefineQuad.Ids(lots)[..|lots|] == DefineQuad.Ids(lots);
    }

    /** The inner loop of one frame: for each lot its crop (`imgcrop`, which raises where
        `get_resized_contours` divides by zero), saved under the frame's name. */
    method CropFrame(f: string) returns (ok: bool)
      modifies this`writes
      ensures var b := FirstUncroppable(lots);
        (ok <==> b == |lots|) && writes == old(writes) + FrameWrites(lots[..b], f)
    {
      var saved;
      ok, saved := CropLots(lots, f);
      writes := writes + saved;
    }
  }

  /** What a run leaves behind: after k processed frames k * |lots| crops, k progress
      signals and exactly one of `canceled` and `finished`; `finished` precisely when
      no check saw the flag and every lot could be cropped (or there were no frames); on
      a raise fewer crops than lots and no signal at all. */
  lemma RunCounts(lots: seq<Lot>, frames: seq<string>, flagSet: bool, cancelSeen: seq<bool>)
    requires |cancelSeen| == |frames|
    ensures var k, b := CancelIndex(flagSet, cancelSeen, 0), FirstUncroppable(lots);
      var ok, w, e := RunOk(lots, frames, flagSet, cancelSeen), RunWrites(lots, frames, flagSet, cancelSeen),
        RunEvents(lots, frames, flagSet, cancelSeen);
      (ok ==> |w| == k * |lots| && |e| == k + 1 && (Finished in e <==> k == |frames|) && (Canceled in e <==> k < |frames|)) &&
      (!ok ==> |frames| > 0 && b < |lots| && |w| == b && e == []) &&
      (Finished in e <==> |frames| == 0 || (!flagSet && b == |lots| && forall i :: 0 <= i < |frames| ==> !cancelSeen[i]))
  {
    var k := CancelIndex(flagSet, cancelSeen, 0);
    WritesForLength(lots, frames[..k]);
    var e := RunEvents(lots, frames, flagSet, cancelSeen);
    if RunOk(lots, frames, flagSet, cancelSeen) {
      var p := ProgressEvents(k, |frames|);
      assert e == p + [e[k]];
      assert forall i :: 0 <= i < k ==> e[i] == p[i] && p[i].ProgressEvent?;
      assert Finished in e <==> e[k] == Finished;
      assert Canceled in e <==> e[k] == Canceled;
    }
  }
}
