# ParkingLotAnnotTool, modelled in Dafny

ParkingLotAnnotTool is a desktop tool for annotating parking-lot camera footage. It has three editors and a crop pipeline:

- **Define quad.** The user draws and edits one quadrilateral ("lot") per parking space on a camera picture. `LotsData` stores the lots as `{id, quad[8]}` records. The `Canvas` mouse and key handlers select, drag, reshape and create lots. A vertex drag is kept only when the reshaped quadrilateral passes the convexity test of `utils/geometry.py`. Creating a lot draws an axis-aligned rectangle.
- **Classify scenes.** For each lot, `SceneData` keeps a timeline of `{label, frame, flags}` entries sorted by frame, e.g. "busy from frame 00120". It answers the previous and next scene of the current frame. It adds at most one entry per frame, flags entries as occluded, and removes entries.
- **Classify conditions.** `ConditionsData` keeps a flat timeline of `{frame, labels: {axis: value}}` entries, with axes such as weather. On load it upgrades legacy `{frame, label}` entries. It answers the label in force at a frame for each axis.
- **Crop pipeline.** `ImageCropWorker` cuts each lot out of every extracted frame. It scales the lot's bounding box onto a 224 x 224 image, reports integer progress and stops when it is cancelled. A lot whose bounding box has no width or no height makes the crop raise, which ends the run. With the corrected y-bounds a run that does not raise writes one file per lot per frame. As written, the code computes a zero height for every rectangle the canvas draws, so such a run raises at its first lot (see "## Findings").
- **Tools and helpers.** Two command-line tools renumber the frames of a scene file and convert a camera-preset file into lots files. There are also path-extension helpers, `clip`, the zoom and wheel routing of the picture view, the button-enable table of the scene classifier, the two seek bars, and value/list/dict classes that notify on change.

The model has one Dafny module per source file, plus `Common` for shared pieces:

- optional values;
- Python list indexing;
- Python's order on `str`;
- decimal digit strings as `int()`, `str()`, `zfill` and `f"{n:05d}"` build and read them;
- the stable sort behind `list.sort(key=...)`.

Objects whose fields the code updates are classes. Their methods state the whole new state. Signals and notifications are event-log fields. A Python exception that ends the operation becomes an `ok = false` result, with the state left as Python leaves it at the raise. Files are document values passed in and returned. Coordinates are exact reals.

The model follows the code, with two exceptions. The code has two defects, listed under "## Findings": the triangle test of `is_point_in_quad` and the y-bounds of the crop. For each, the model states the code as written and proves the discrepancy, and the rest of the model uses the corrected definition. The members that depend on a corrected definition are named at the head of their lines under "## Left out".

Behaviours of the code a reader might not expect:

- `add_lot` appends without checking id uniqueness or convexity.
- The convexity check on a vertex drag is made by the canvas, not by the store.
- Convexity accepts collinear vertices.
- `delete_selected_area` does not set the dirty flag.
- A lots record has no crop flag.
- `SceneData` never sets its dirty flag, so its `may_save` never saves.
- `get_label_find_by_frame` falls back to the previous label of the *current* frame, not the frame asked about.

## Model

| member | source | states |
|---|---|---|
| Geometry.CrossProductAntisymmetric | ParkingLotAnnotTool/utils/geometry.py:42-47 | exchanging the outer vertices a and c negates the cross product (a - b) x (c - b) |
| Geometry.CrossProductLength | ParkingLotAnnotTool/utils/geometry.py:42-47 | `cross_product_length`: (a - b) x (c - b); CrossProductAntisymmetric and CrossProductTranslation state its properties |
| Geometry.CrossProductTranslation | ParkingLotAnnotTool/utils/geometry.py:42-47 | moving all three points by the same (dx, dy) leaves the cross product unchanged |
| Geometry.Next | ParkingLotAnnotTool/utils/geometry.py:52-53 | the successor index is (i + 1) % n and stays below n |
| Geometry.Prev | ParkingLotAnnotTool/utils/geometry.py:52-53 | the predecessor index is below n and its successor is i |
| Geometry.CrossAt | ParkingLotAnnotTool/utils/geometry.py:51-54 | the cross product the loop computes at step a, at vertices a, (a+1) % n, (a+2) % n |
| Geometry.Convex | ParkingLotAnnotTool/utils/geometry.py:48-61 | the verdict of `is_polygon_convex`: not both a strictly negative and a strictly positive cyclic cross product; the loop is proved to compute it by IsPolygonConvex |
| Geometry.IsPolygonConvex | ParkingLotAnnotTool/utils/geometry.py:38-61 | the loop over all n cyclic triples with two sign flags and the early return answers exactly Convex: not both a strictly negative and a strictly positive cross product among the n triples (i, i+1 mod n, i+2 mod n) |
| Geometry.Rotate | ParkingLotAnnotTool/utils/geometry.py:51-54 | a rotation of the vertex list keeps its length |
| Geometry.Reverse | ParkingLotAnnotTool/utils/geometry.py:51-54 | the reversed vertex list holds s[n-1-i] at position i |
| Geometry.RotateAt | ParkingLotAnnotTool/utils/geometry.py:51-54 | position i of the list rotated by k is position Shift(i, k, n) of the original |
| Geometry.CrossAtRotate | ParkingLotAnnotTool/utils/geometry.py:51-54 | the cross product at step a of the rotated polygon is the original cross product at the shifted step |
| Geometry.ConvexRotationInvariant | ParkingLotAnnotTool/utils/geometry.py:51-54 | the convexity verdict does not depend on which vertex the list starts at |
| Geometry.CrossAtReverse | ParkingLotAnnotTool/utils/geometry.py:42-47 | each cross product of the reversed polygon is the negated cross product at the mirrored middle vertex |
| Geometry.ConvexReversalInvariant | ParkingLotAnnotTool/utils/geometry.py:42-47 | the convexity verdict does not depend on the direction the vertices are listed in |
| Geometry.RectangleIsConvex | ParkingLotAnnotTool/utils/geometry.py:38-61 | every rectangle (xmin,ymin), (xmax,ymin), (xmax,ymax), (xmin,ymax) passes the test |
| Geometry.BowtieIsNotConvex | ParkingLotAnnotTool/utils/geometry.py:38-61 | the bowtie (0,0), (10,10), (10,0), (0,10) fails the test |
| Geometry.CollinearVertexAccepted | ParkingLotAnnotTool/utils/geometry.py:55-58 | (0,0), (10,0), (5,5), (0,10) has cross product 0 at (5,5) and is still reported convex: zero products set neither flag |
| MathUtil.Clip | ParkingLotAnnotTool/utils/math.py:1-5 | the result lies in [lower, upper] when lower <= upper; an in-range value is kept; a value below lower gives lower and one above upper gives upper; an empty range gives lower |
| MathUtil.ClipIdempotent | ParkingLotAnnotTool/utils/math.py:1-5 | clipping twice is clipping once |
| FileSystem.LastIndexOf | ParkingLotAnnotTool/utils/filesystem.py:13-14 | `rfind`: -1 or an index holding c, with no c after it |
| FileSystem.SplitExt | ParkingLotAnnotTool/utils/filesystem.py:13-17 | POSIX `splitext`: root and extension concatenate back to the path |
| FileSystem.Ext | ParkingLotAnnotTool/utils/filesystem.py:13-14 | `ext(p)` is empty or starts with '.' and holds no '/' |
| FileSystem.ChExt | ParkingLotAnnotTool/utils/filesystem.py:16-17 | `chext(p, e)` is as long as root(p) plus e |
| FileSystem.IsExt | ParkingLotAnnotTool/utils/filesystem.py:19-23 | for a string, whether ext(p) equals it; for a list or tuple, whether ext(p) is a member; for any other type, None |
| FileSystem.ExtMeaning | ParkingLotAnnotTool/utils/filesystem.py:13-14 | the extension is the suffix from the last '.' exactly when that dot lies after the last '/' and a non-dot character precedes it in the final component, else ""; a non-empty extension has no further '.' |
| FileSystem.ChExtOwnExt | ParkingLotAnnotTool/utils/filesystem.py:16-17 | chext(p, ext(p)) == p |
| FileSystem.SplitAppended | ParkingLotAnnotTool/utils/filesystem.py:13-17 | splitting root + e, for a simple extension e and a root with a stem, gives back (root, e) |
| FileSystem.LastIndexOfAppend | ParkingLotAnnotTool/utils/filesystem.py:13-14 | the last c in s + t is in t if t has one, else the last c in s |
| FileSystem.ExtOfChExt | ParkingLotAnnotTool/utils/filesystem.py:16-17 | ext(chext(p, e)) == e when e is '.' followed by characters that are neither '.' nor '/' and root(p) has a stem |
| FileSystem.ChExtIdempotent | ParkingLotAnnotTool/utils/filesystem.py:16-17 | under the same condition chext(chext(p, e), e) == chext(p, e) |
| FileSystem.ChExtNeedsStem | ParkingLotAnnotTool/utils/filesystem.py:16-17 | chext("dir/.", ".jpg") has an empty extension, so the stem condition is needed |
| LotsData.Points | ParkingLotAnnotTool/core/definequad/lotsdata.py:115-119 | the flat quad becomes four pairs (quad[2i], quad[2i+1]) in order |
| LotsData.FlattenPoints | ParkingLotAnnotTool/core/definequad/lotsdata.py:115-119 | flattening the four pairs gives back the quad |
| LotsData.PointsFlatten | ParkingLotAnnotTool/core/definequad/lotsdata.py:115-119 | reshaping a flattened list of four pairs gives back the pairs |
| LotsData.Xs | ParkingLotAnnotTool/core/definequad/definequad.py:336-348 | the x-coordinates handed to the convexity test are the first components of the four vertices |
| LotsData.Ys | ParkingLotAnnotTool/core/definequad/definequad.py:336-348 | the y-coordinates are the second components |
| LotsData.SetVertex | ParkingLotAnnotTool/core/definequad/lotsdata.py:125-126 | the quad `set_point_by_idx` writes; SetVertexPoints proves it moves vertex pidx only |
| LotsData.Translate | ParkingLotAnnotTool/core/definequad/lotsdata.py:133-141 | the quad `move_lot_by_idx` writes; TranslatePoints, TranslateInverse, TranslateCompose and TranslateKeepsConvexity state its properties |
| LotsData.SetVertexPoints | ParkingLotAnnotTool/core/definequad/lotsdata.py:125-126 | writing quad[2*pidx] and quad[2*pidx+1] moves vertex pidx to (x, y) and no other vertex |
| LotsData.TranslatePoints | ParkingLotAnnotTool/core/definequad/lotsdata.py:133-141 | the eight additions shift every vertex by (dx, dy) |
| LotsData.TranslateInverse | ParkingLotAnnotTool/core/definequad/lotsdata.py:133-141 | moving back by (-dx, -dy) undoes a move |
| LotsData.TranslateCompose | ParkingLotAnnotTool/core/definequad/lotsdata.py:133-141 | two moves add up to one |
| LotsData.TranslateKeepsConvexity | ParkingLotAnnotTool/core/definequad/lotsdata.py:129-142 | moving a lot never changes whether it passes the convexity test |
| LotsData.SCoord | ParkingLotAnnotTool/core/definequad/lotsdata.py:167 | s is the orientation of the point against the edge v3 -> v1 |
| LotsData.TCoord | ParkingLotAnnotTool/core/definequad/lotsdata.py:168 | t is the orientation of the point against the edge v1 -> v2 |
| LotsData.Area2 | ParkingLotAnnotTool/core/definequad/lotsdata.py:171 | A is twice the signed area of v1, v2, v3 |
| LotsData.RemainingEdge | ParkingLotAnnotTool/core/definequad/lotsdata.py:167-175 | A - s - t is the orientation against the third edge v2 -> v3 |
| LotsData.IntersectAsWritten | ParkingLotAnnotTool/core/definequad/lotsdata.py:162-175 | `intersect` as written; IntersectAsWrittenCounterClockwise and IntersectAsWrittenClockwiseEdge compare it with Intersect |
| LotsData.Intersect | ParkingLotAnnotTool/core/definequad/lotsdata.py:162-175 | the closed-triangle test `intersect` is meant to be; IntersectIsClosedTriangle proves its meaning |
| LotsData.IntersectIsClosedTriangle | ParkingLotAnnotTool/core/definequad/lotsdata.py:162-175 | for a non-degenerate triangle the corrected test holds exactly when no edge has the point strictly outside |
| LotsData.IntersectStrictlyInside | ParkingLotAnnotTool/core/definequad/lotsdata.py:162-175 | a point strictly inside is reported inside by the code as written and by the corrected test |
| LotsData.IntersectStrictlyOutside | ParkingLotAnnotTool/core/definequad/lotsdata.py:162-175 | a point strictly outside a non-degenerate triangle is reported outside by the corrected test |
| LotsData.IntersectAsWrittenCounterClockwise | ParkingLotAnnotTool/core/definequad/lotsdata.py:169-175 | for A >= 0 the code as written equals the corrected test |
| LotsData.IntersectAsWrittenClockwiseEdge | ParkingLotAnnotTool/core/definequad/lotsdata.py:169-173 | for A < 0 with s == 0 and t > 0 the code as written says inside although the point is strictly outside |
| LotsData.IntersectAsWrittenClockwiseCounterexample | ParkingLotAnnotTool/core/definequad/lotsdata.py:162-175 | the point (-50,-50) and the clockwise triangle (0,0), (0,10), (10,10): strictly outside, yet reported inside |
| LotsData.InQuadAsWrittenCounterexample | ParkingLotAnnotTool/core/definequad/lotsdata.py:177-183 | (-50,-50) is put in the square lot (0,0), (10,0), (10,10), (0,10) by the code as written and not by the corrected test |
| LotsData.SquareFirstTriangle | ParkingLotAnnotTool/core/definequad/lotsdata.py:180 | (-50,-50) is outside the triangle (v1, v2, v3) of the square under both tests |
| LotsData.SquareSecondTriangle | ParkingLotAnnotTool/core/definequad/lotsdata.py:181 | (-50,-50) is inside the triangle (v1, v4, v3) of the square only under the code as written |
| LotsData.OutsideFirstEdge | ParkingLotAnnotTool/core/definequad/lotsdata.py:169-175 | with A > 0 and t < 0 both tests answer outside |
| LotsData.InQuad | ParkingLotAnnotTool/core/definequad/lotsdata.py:177-183 | the point is in triangle (v1,v2,v3) or (v1,v4,v3) by the corrected test |
| LotsData.InQuadAsWritten | ParkingLotAnnotTool/core/definequad/lotsdata.py:177-183 | the same with the code's triangle test |
| LotsData.FirstLotContaining | ParkingLotAnnotTool/core/definequad/lotsdata.py:177-183 | the smallest index from i whose triangle (v1,v2,v3) or (v1,v4,v3) contains the point under the corrected triangle test; None exactly when none does |
| LotsData.FirstLotContainingAsWritten | ParkingLotAnnotTool/core/definequad/lotsdata.py:177-183 | the smallest index from i whose quad contains the point under the code's triangle test; None exactly when none does |
| LotsData.FirstLotContainingAsWrittenCounterexample | ParkingLotAnnotTool/core/definequad/lotsdata.py:177-183 | with the single square lot (0,0), (10,0), (10,10), (0,10), `is_point_in_quad(-50, -50)` as written returns lot 0, the corrected scan None |
| LotsData.SqDist | ParkingLotAnnotTool/core/definequad/lotsdata.py:155 | the squared distance to a vertex is non-negative |
| LotsData.NearestSoFar | ParkingLotAnnotTool/core/definequad/lotsdata.py:151-160 | the running minimum after a prefix of the scan: None only before the first vertex; otherwise a scanned vertex with the least distance, strictly closer than every vertex scanned before it |
| LotsData.NearestVertex | ParkingLotAnnotTool/core/definequad/lotsdata.py:151-160 | the result of `nearest_point`; NearestVertexSpec states its meaning |
| LotsData.NearestVertexSpec | ParkingLotAnnotTool/core/definequad/lotsdata.py:151-160 | nearest_point is None exactly when there are no lots; otherwise its vertex is at least as close as every vertex and strictly closer than every earlier one (first wins ties) |
| LotsData.LotStore.constructor | ParkingLotAnnotTool/core/definequad/lotsdata.py:14-24 | an empty, clean, unloaded list with no paths, flags off and no selection |
| LotsData.LotStore.Document | ParkingLotAnnotTool/core/definequad/lotsdata.py:70-74 | the saved document has version "0.1", the image path and the lots |
| LotsData.LotStore.Save | ParkingLotAnnotTool/core/definequad/lotsdata.py:70-78 | appends the document to the written files, sets loaded and clears dirty; nothing else changes |
| LotsData.LotStore.MaySave | ParkingLotAnnotTool/core/definequad/lotsdata.py:80-88 | saves exactly when dirty and the answer is yes |
| LotsData.LotStore.Reset | ParkingLotAnnotTool/core/definequad/lotsdata.py:26-31 | after the save question: empty lots, clean, no selection, one data_changed |
| LotsData.LotStore.Load | ParkingLotAnnotTool/core/definequad/lotsdata.py:33-43 | after the save question: the document's image path and lots, clean, loaded, no selection, one data_changed |
| LotsData.LotStore.SetEditable | ParkingLotAnnotTool/core/definequad/lotsdata.py:54-55 | sets editable only |
| LotsData.LotStore.SetAddable | ParkingLotAnnotTool/core/definequad/lotsdata.py:60-61 | sets addable only |
| LotsData.LotStore.SetImagePath | ParkingLotAnnotTool/core/definequad/lotsdata.py:93-94 | sets the image path only |
| LotsData.LotStore.SetJsonPath | ParkingLotAnnotTool/core/definequad/lotsdata.py:99-100 | sets the JSON path only |
| LotsData.LotStore.SetSelectedIdx | ParkingLotAnnotTool/core/definequad/lotsdata.py:66-68 | sets the selection and emits selected_idx_changed once |
| LotsData.LotStore.GetLotByIdx | ParkingLotAnnotTool/core/definequad/lotsdata.py:105-109 | None exactly when lidx >= number of lots, else lot lidx |
| LotsData.LotStore.GetPointsByIdx | ParkingLotAnnotTool/core/definequad/lotsdata.py:111-119 | None exactly when lidx >= number of lots, else four pairs (quad[2i], quad[2i+1]) that flatten back to the quad |
| LotsData.LotStore.SetPointByIdx | ParkingLotAnnotTool/core/definequad/lotsdata.py:121-127 | in range: only vertex pidx of lot lidx changes and dirty is set; out of range: nothing changes; never a signal |
| LotsData.LotStore.MoveLotByIdx | ParkingLotAnnotTool/core/definequad/lotsdata.py:129-142 | in range: lot lidx is translated by (dx, dy), other lots are unchanged and dirty is set; out of range: nothing changes |
| LotsData.LotStore.DeleteSelectedArea | ParkingLotAnnotTool/core/definequad/lotsdata.py:144-149 | with no selection nothing changes; otherwise the selected lot (Python index) is removed, the selection cleared and data_changed emitted, dirty untouched; an out-of-range index raises before any change |
| LotsData.LotStore.NearestPoint | ParkingLotAnnotTool/core/definequad/lotsdata.py:151-160 | the nested loops compute NearestVertex |
| LotsData.LotStore.IsPointInQuad | ParkingLotAnnotTool/core/definequad/lotsdata.py:177-183 | the loop returns the first lot containing the point (corrected triangle test), or None |
| LotsData.LotStore.AddLot | ParkingLotAnnotTool/core/definequad/lotsdata.py:185-196 | appends {id, quad [x1..y4]} at the end without checks, sets dirty, emits data_changed |
| DefineQuad.CloserIsDistance | ParkingLotAnnotTool/core/definequad/definequad.py:362 | comparing the squared distance with the squared limit decides `dist < epsilon / scale` exactly |
| DefineQuad.PositiveProduct | ParkingLotAnnotTool/core/definequad/definequad.py:362 | the product of two positive numbers is positive (used for the squared comparison) |
| DefineQuad.SquareLt | ParkingLotAnnotTool/core/definequad/definequad.py:362 | squaring keeps the order of non-negative numbers |
| DefineQuad.HoverResult | ParkingLotAnnotTool/core/definequad/definequad.py:356-368 | the highlight the hover branch computes, or the crash of a zero scale; HoverMeaning states its meaning |
| DefineQuad.HoverMeaning | ParkingLotAnnotTool/core/definequad/definequad.py:356-368 | the recomputed highlight is the nearest vertex (first on ties) when strictly closer than 16 / scale; otherwise the first lot containing the cursor with no vertex; otherwise nothing; it fails only for a zero scale with some lot present |
| DefineQuad.PopupRectangle | ParkingLotAnnotTool/core/definequad/definequad.py:283-295 | the created lot's corners (xmin,ymin), (xmax,ymin), (xmax,ymax), (xmin,ymax) from press and release always pass the convexity test |
| DefineQuad.PopupRectangleCorners | ParkingLotAnnotTool/core/definequad/definequad.py:286-295 | press and release points are corners, all corners come from their coordinates, the x and y ranges are ordered, and swapping the two points gives the same lot |
| DefineQuad.AllConvexUpdate | ParkingLotAnnotTool/core/definequad/definequad.py:336-348 | replacing one lot by a convex quad keeps every lot convex |
| DefineQuad.AllConvexTranslate | ParkingLotAnnotTool/core/definequad/definequad.py:349-355 | translating one lot keeps every lot convex |
| DefineQuad.AllConvexRemove | ParkingLotAnnotTool/core/definequad/definequad.py:322-323 | removing a lot keeps every lot convex |
| DefineQuad.Canvas.constructor | ParkingLotAnnotTool/core/definequad/definequad.py:303-315 | nothing highlighted, no cursor recorded, no press |
| DefineQuad.Canvas.KeyPressEvent | ParkingLotAnnotTool/core/definequad/definequad.py:319-323 | Escape clears the selection with one selected_idx_changed; Delete succeeds exactly when there is no selection or its Python index is valid, and then removes the selected lot with one data_changed, else changes no lot, selection or signal; other keys change nothing; dirty, paths, loaded, flags and saved files never change; all-convex lots stay all convex |
| DefineQuad.Canvas.MouseMoveEvent | ParkingLotAnnotTool/core/definequad/definequad.py:332-371 | a vertex drag commits only a convex candidate and otherwise leaves quad, dirty and recorded cursor unchanged; a lot drag (editable, on a lot, not on a vertex) translates by the cursor's movement since the last record; otherwise the highlight is HoverResult; all-convex lots stay all convex |
| DefineQuad.Canvas.DragVertex | ParkingLotAnnotTool/core/definequad/definequad.py:336-348 | the vertex-drag branch: fails for a lot index past the end; commits the moved vertex and the cursor only when the candidate quad is convex |
| DefineQuad.Canvas.DragLot | ParkingLotAnnotTool/core/definequad/definequad.py:349-355 | the lot-drag branch: fails with no highlighted lot; translates that lot by (x - mouse_x, y - mouse_y) and records the cursor |
| DefineQuad.Canvas.HoverAt | ParkingLotAnnotTool/core/definequad/definequad.py:356-371 | the hover branch sets the highlight to HoverResult and records the cursor; fails exactly where HoverResult crashes |
| DefineQuad.Canvas.MousePressEvent | ParkingLotAnnotTool/core/definequad/definequad.py:375-389 | a left press sets the pressed flags from the highlight and selects the highlighted lot when pressed on a lot; any press records its position |
| DefineQuad.Canvas.MouseReleaseEvent | ParkingLotAnnotTool/core/definequad/definequad.py:393-407 | the dialog is offered only when addable, left button, a press position exists, and the press was on no lot and no vertex; an accepted dialog appends the PopupRectangle lot; a left release clears all three press flags |
| DefineQuad.Ids | ParkingLotAnnotTool/core/definequad/definequad.py:217 | the crop-lot ids in order |
| DefineQuad.MergeBase | ParkingLotAnnotTool/core/definequad/definequad.py:203-215 | an existing scene file gets its lots replaced; otherwise a new version "0.3" file with no scenes and no difficult frames |
| DefineQuad.MergeSceneDocument | ParkingLotAnnotTool/core/definequad/definequad.py:203-221 | lots replaced by the crop lots; every crop-lot id gains empty scenes and difficult_frames lists where absent; existing lists kept; fails for an existing file without difficult_frames when there is a crop lot |
| DefineQuad.FreshConditionsDocument | ParkingLotAnnotTool/core/definequad/definequad.py:226-235 | version "0.3", the video path, no conditions, no times, and the interval as a digit string of its value |
| DefineQuad.DefineQuadWidget.constructor | ParkingLotAnnotTool/core/definequad/definequad.py:33-80 | a fresh empty store and canvas, in "None" mode: editable, not addable |
| DefineQuad.DefineQuadWidget.ClickNone | ParkingLotAnnotTool/core/definequad/definequad.py:119-129 | only the None tool is checked; not addable, editable; lots untouched |
| DefineQuad.DefineQuadWidget.ClickDraw | ParkingLotAnnotTool/core/definequad/definequad.py:119-137 | only the Draw tool is checked; addable, not editable; lots untouched |
| DefineQuad.DefineQuadWidget.ClickExtractFrames | ParkingLotAnnotTool/core/definequad/definequad.py:178-237 | after the save question it stops when never loaded or saved, with no crop lots, or on a cancelled dialog; otherwise it writes the merged scene file (version and video path of the merge base, the crop lots, empty scenes and difficult_frames lists for every new id) and the fresh conditions file; the store's lots, paths, selection, flags and signals are unchanged |
| PictureCanvas.Trunc | ParkingLotAnnotTool/core/definequad/canvas.py:276 | Python's `int(x)`: the integer next to x toward zero |
| PictureCanvas.WheelRoute | ParkingLotAnnotTool/core/definequad/canvas.py:133-143 | the requests of one wheel event; WheelRouteMeaning states its meaning |
| PictureCanvas.WheelRouteMeaning | ParkingLotAnnotTool/core/definequad/canvas.py:133-143 | with exactly Ctrl and a non-zero vertical delta, exactly one zoom request with that delta and no scroll; otherwise one scroll request per non-zero component carrying that component, vertical first |
| PictureCanvas.NotchIncrement | ParkingLotAnnotTool/core/definequad/canvas.py:246-248 | one wheel notch (delta +-120) is a zoom increment of +-10 |
| PictureCanvas.NotchZoomsByTen | ParkingLotAnnotTool/core/definequad/canvas.py:246-248 | one notch from any zoom in range moves it by 10, stopping at 1 or 500 |
| PictureCanvas.CanvasPicture.constructor | ParkingLotAnnotTool/core/definequad/canvas.py:24-29 | painter scale 1.0 and no pixmap |
| PictureCanvas.CanvasPicture.SetPicture | ParkingLotAnnotTool/core/definequad/canvas.py:157-165 | a pixmap is loaded on both branches |
| PictureCanvas.CanvasPicture.SetZoom | ParkingLotAnnotTool/core/definequad/canvas.py:167-168 | the painter scale becomes value / 100 |
| PictureCanvas.CanvasPicture.WheelEvent | ParkingLotAnnotTool/core/definequad/canvas.py:133-143 | emits exactly the WheelRoute requests |
| PictureCanvas.CanvasScroll.constructor | ParkingLotAnnotTool/core/definequad/canvas.py:188-192 | zoom starts at 100 |
| PictureCanvas.CanvasScroll.SetZoom | ParkingLotAnnotTool/core/definequad/canvas.py:259-271 | no pixmap: nothing changes; else zoom = clip(int(z), 1, 500), passed to the picture |
| PictureCanvas.CanvasScroll.AddZoom | ParkingLotAnnotTool/core/definequad/canvas.py:273-278 | no pixmap: nothing changes; else zoom = clip(int(zoom + increment), 1, 500), passed to the picture |
| PictureCanvas.CanvasScroll.FitWindow | ParkingLotAnnotTool/core/definequad/canvas.py:280-286 | no pixmap: nothing changes; else zoom = clip(int(100 * fit scale), 1, 500), passed to the picture |
| PictureCanvas.CanvasScroll.ZoomRequestEvent | ParkingLotAnnotTool/core/definequad/canvas.py:215-248 | no pixmap: nothing changes; else an add_zoom of 10 * delta / 120, so zoom stays within 1..500 and matches the picture |
| ClassifyScene.RefreshedLabels | ParkingLotAnnotTool/core/classifyscene/classifyscene.py:127-142 | no previous scene changes nothing; a null label enables Busy and Free, "free" only Busy, "busy" only Free, any other label keeps both |
| ClassifyScene.RefreshedFlags | ParkingLotAnnotTool/core/classifyscene/classifyscene.py:144-155 | no flags enable all three flag actions; otherwise each action is disabled exactly when its flag is listed or it was already disabled |
| ClassifyScene.Refreshed | ParkingLotAnnotTool/core/classifyscene/classifyscene.py:127-155 | `refresh`: the label rules and then the flag rules of the previous scene; RefreshedLabels and RefreshedFlags state them |
| ClassifyScene.ClassifySceneWidget.constructor | ParkingLotAnnotTool/core/classifyscene/classifyscene.py:34-38 | all five actions start enabled |
| ClassifyScene.ClassifySceneWidget.ClickFree | ParkingLotAnnotTool/core/classifyscene/classifyscene.py:92-95 | add_scene("free") and the refresh its data_changed runs: ok exactly when the lot's scenes are found; a "free" scene is added at the current frame, with one DataChanged, unless one exists there; after an addition Busy and the three flag actions are enabled and Free is disabled; otherwise scenes, events and enable state are unchanged; no other store field changes |
| ClassifyScene.ClassifySceneWidget.ClickBusy | ParkingLotAnnotTool/core/classifyscene/classifyscene.py:97-100 | add_scene("busy") and the refresh its data_changed runs: as ClickFree, with "busy", Busy disabled and Free enabled |
| ClassifyScene.ClassifySceneWidget.Refresh | ParkingLotAnnotTool/core/classifyscene/classifyscene.py:127-155 | ok exactly when a lot is selected at a valid index and its id has scenes (otherwise `current_lot_img` or `prev_scene` raises, changing nothing); then that lot's list is re-sorted by frame and the enable state becomes Refreshed of the scene before the current frame; no other store field changes |
| ClassifyScene.ClassifySceneWidget.AddSceneAndRefresh | ParkingLotAnnotTool/core/classifyscene/classifyscene.py:92-100 | the common body of ClickFree and ClickBusy: add_scene, then refresh when data_changed was emitted |
| ClassifyScene.AddedSceneIsPrev | ParkingLotAnnotTool/core/classifyscene/classifyscene.py:127-131 | a scene added at a frame where the lot had none is the previous scene refresh finds at that frame |
| ClassifyScene.OnlyAddedAtFrame | ParkingLotAnnotTool/core/classifyscene/scenedata.py:195-211 | after adding a scene at a frame where the lot had none, any reordering of the list holds it and no other scene at that frame |
| ClassifyScene.PrevOfOnlyAtFrame | ParkingLotAnnotTool/core/classifyscene/classifyscene.py:127-131 | in a frame-sorted list, the only scene at a frame is the scene refresh finds as previous at that frame |
| ClassifyScene.SortedOnlyAtFrame | ParkingLotAnnotTool/core/classifyscene/classifyscene.py:127-131 | in a frame-sorted list, the only scene at a frame is the last one not after it |
| ClassifyScene.AddedSceneShows | ParkingLotAnnotTool/core/classifyscene/classifyscene.py:134-155 | after a click adds a scene, refresh disables the clicked label's action, enables the other and enables the three flag actions |
| ClassifyScene.AfterLabel | ParkingLotAnnotTool/core/classifyscene/classifyscene.py:134-142 | the label branches of refresh; RefreshedLabels states them |
| ClassifyScene.AfterFlags | ParkingLotAnnotTool/core/classifyscene/classifyscene.py:144-155 | the flag loop of refresh; RefreshedFlags states it |
| ClassifyScene.PrevOf | ParkingLotAnnotTool/core/classifyscene/classifyscene.py:129 | the scene `prev_scene()` gives: the last scene of the sorted list not after the current frame; AddedSceneIsPrev uses it |
| ClassifyScene.ClassifySceneWidget.ApplyLabel | ParkingLotAnnotTool/core/classifyscene/classifyscene.py:132-142 | the label branches give AfterLabel |
| ClassifyScene.ClassifySceneWidget.ApplyFlags | ParkingLotAnnotTool/core/classifyscene/classifyscene.py:144-155 | the loop over the flags gives AfterFlags |
| SceneData.LastAtMost | ParkingLotAnnotTool/core/classifyscene/scenedata.py:110-113 | the last index whose frame is <= the current frame in string order, with every later frame after it; None exactly when no frame is <= current |
| SceneData.AdjacentSpec | ParkingLotAnnotTool/core/classifyscene/scenedata.py:103-118 | what `get_adjacent_scenes` is meant to return: prev the last entry with frame <= current, next an entry of least frame > current; AdjacentScenes proves the loop meets it |
| SceneData.AdjacentScenes | ParkingLotAnnotTool/core/classifyscene/scenedata.py:109-118 | on a frame-sorted list the loop with its `break` yields prev = LastAtMost and next = an entry with the least frame > current (None exactly when no frame is > current) |
| SceneData.AfterNextIsAfter | ParkingLotAnnotTool/core/classifyscene/scenedata.py:114-117 | in a sorted list every entry after one whose frame is > current has a frame > current |
| SceneData.LastAtMostStep | ParkingLotAnnotTool/core/classifyscene/scenedata.py:112-113 | one loop turn: entry i becomes prev exactly when its frame is <= current |
| SceneData.AdjacentNewNext | ParkingLotAnnotTool/core/classifyscene/scenedata.py:114-117 | an entry after current and not past the candidate has the least frame > current seen so far |
| SceneData.AdjacentAtBreak | ParkingLotAnnotTool/core/classifyscene/scenedata.py:115-116 | at the `break` the candidate next and the prev found so far are already the final answer |
| SceneData.LastAtMostSuffix | ParkingLotAnnotTool/core/classifyscene/scenedata.py:110-113 | entries all after current do not change the prev scene |
| SceneData.AdjacentNothingBetween | ParkingLotAnnotTool/core/classifyscene/scenedata.py:103-118 | prev holds the greatest frame <= current, and no stored frame lies strictly between prev and next |
| SceneData.Flag | ParkingLotAnnotTool/core/classifyscene/scenedata.py:216 | appending "occluded" to one entry's flags keeps the list length |
| SceneData.CountOccluded | ParkingLotAnnotTool/core/classifyscene/scenedata.py:154-162 | the count is at most the number of scenes and is zero exactly when no scene has the flag |
| SceneData.CountOccludedAppend | ParkingLotAnnotTool/core/classifyscene/scenedata.py:154-162 | the count of two lists joined is the sum of their counts |
| SceneData.CountOccludedFlagged | ParkingLotAnnotTool/core/classifyscene/scenedata.py:213-217 | flagging a scene raises the count by one if it had no "occluded" flag and leaves it alone otherwise (duplicates allowed) |
| SceneData.WithOccludedFlag | ParkingLotAnnotTool/core/classifyscene/scenedata.py:213-217 | the list `add_occluded_flag` leaves: sorted, and the previous scene flagged when there is one; AddOccludedFlag ensures it |
| SceneData.SceneStore.constructor | ParkingLotAnnotTool/core/classifyscene/scenedata.py:18-29 | no lots or scenes, not dirty, not loaded, frame "00000", nothing selected |
| SceneData.SceneStore.CurrentLotScenes | ParkingLotAnnotTool/core/classifyscene/scenedata.py:85-88 | None exactly with no lot selected; otherwise the list stored under the selected lot's id (Python index), or failure for a bad index or an id missing from the scenes |
| SceneData.SceneStore.Document | ParkingLotAnnotTool/core/classifyscene/scenedata.py:234-239 | version "0.1" with the video path, lots and scenes only: difficult frames are never written |
| SceneData.SceneStore.Save | ParkingLotAnnotTool/core/classifyscene/scenedata.py:234-243 | writes the document and sets loaded; the data stays clean |
| SceneData.SceneStore.MaySave | ParkingLotAnnotTool/core/classifyscene/scenedata.py:245-253 | the data is never dirty, so nothing happens |
| SceneData.SceneStore.UpdateCurrentFrame | ParkingLotAnnotTool/core/classifyscene/scenedata.py:53-55 | sets the current frame and emits current_frame_changed |
| SceneData.SceneStore.SetSelectedLotIdx | ParkingLotAnnotTool/core/classifyscene/scenedata.py:60-62 | sets the lot selection and emits selected_lot_idx_changed |
| SceneData.SceneStore.Load | ParkingLotAnnotTool/core/classifyscene/scenedata.py:34-48 | video path, lots and scenes from the document; clean and loaded; no scene selected, lot 0 selected, frame "00000"; the three signals in order |
| SceneData.SceneStore.SetSelectedSceneIdx | ParkingLotAnnotTool/core/classifyscene/scenedata.py:72-83 | stores the index; for an index the current frame becomes that scene's frame; fails after storing when the lookup or the index raises |
| SceneData.SceneStore.SortScenes | ParkingLotAnnotTool/core/classifyscene/scenedata.py:90-93 | only the current lot's list is replaced, by SortByKey of it (sorted and a permutation, see Common.SortByKeySorted and Common.SortByKeyPermutes) |
| SceneData.SceneStore.GetAdjacentScenes | ParkingLotAnnotTool/core/classifyscene/scenedata.py:103-118 | sorts the current lot, then prev and next as in AdjacentScenes; both None with no lot or an empty list |
| SceneData.SceneStore.PrevScene | ParkingLotAnnotTool/core/classifyscene/scenedata.py:124-126 | the scene with the greatest frame <= current in the sorted list, or None |
| SceneData.SceneStore.NextScene | ParkingLotAnnotTool/core/classifyscene/scenedata.py:120-122 | a scene with the least frame > current in the sorted list, present exactly when some frame is > current |
| SceneData.SceneStore.LabelIsExistInFrame | ParkingLotAnnotTool/core/classifyscene/scenedata.py:195-200 | whether some scene of the current lot is at the frame; fails unless the lot's list was found |
| SceneData.SceneStore.AddScene | ParkingLotAnnotTool/core/classifyscene/scenedata.py:202-211 | no change if a scene is at the current frame; otherwise appends {label, current frame, no flags}, re-sorts that lot and emits data_changed; other lots untouched |
| SceneData.SceneStore.InsertScene | ParkingLotAnnotTool/core/classifyscene/scenedata.py:205-211 | the append, sort and signal of add_scene |
| SceneData.SceneStore.AddOccludedFlag | ParkingLotAnnotTool/core/classifyscene/scenedata.py:213-217 | the current lot's list is sorted and its prev scene gets "occluded" appended (even if present) with data_changed; no prev scene: only the sort |
| SceneData.SceneStore.FlagPreviousScene | ParkingLotAnnotTool/core/classifyscene/scenedata.py:216-217 | on a sorted list with a prev scene, that scene is flagged and data_changed emitted |
| SceneData.SceneStore.RemoveSelectedScene | ParkingLotAnnotTool/core/classifyscene/scenedata.py:219-226 | pops the selected entry (Python index) of the current lot and emits data_changed; no-op with no lot, an empty list or no selection; the selection is kept |
| SceneData.SceneStore.NumOccludedScenes | ParkingLotAnnotTool/core/classifyscene/scenedata.py:154-162 | the loop counts CountOccluded of the current lot's list; 0 with no lot |
| ConditionsData.UpgradeAll | ParkingLotAnnotTool/core/classifyconditions/conditionsdata.py:38-47 | one upgraded entry per stored entry, same order and count: entries with 'labels' kept, legacy {frame, label} rewritten |
| ConditionsData.Store | ParkingLotAnnotTool/core/classifyconditions/conditionsdata.py:150-158 | save writes every entry in the current form, same order and count |
| ConditionsData.LoadStoreRoundTrip | ParkingLotAnnotTool/core/classifyconditions/conditionsdata.py:38-47 | loading what save wrote gives back the same entries |
| ConditionsData.UpgradeLegacy | ParkingLotAnnotTool/core/classifyconditions/conditionsdata.py:43-47 | a legacy entry keeps its frame and its label becomes the only label, under "weather" |
| ConditionsData.Upgrade | ParkingLotAnnotTool/core/classifyconditions/conditionsdata.py:39-47 | one entry of the load loop: current entries kept, legacy ones rewritten; UpgradeLegacy states the rewrite |
| ConditionsData.Frames | ParkingLotAnnotTool/core/classifyconditions/conditionsdata.py:81 | the frames of the entries, in order |
| ConditionsData.FirstGap | ParkingLotAnnotTool/core/classifyconditions/conditionsdata.py:84-86 | the first j from i with s[j] <= f < s[j+1], or None exactly when there is none |
| ConditionsData.SortedFrames | ParkingLotAnnotTool/core/classifyconditions/conditionsdata.py:81-82 | `sorted(frames)`; SortedAdjacent and FramesAdjacentSpec state what is read from it |
| ConditionsData.Pick | ParkingLotAnnotTool/core/classifyconditions/conditionsdata.py:84-91 | the pair the loop and the two tail cases of get_frames_adjacent_label return; SortedAdjacent states its meaning |
| ConditionsData.SortedLe | ParkingLotAnnotTool/core/classifyconditions/conditionsdata.py:82 | in a sorted list an earlier element is <= a later one |
| ConditionsData.LastAtMostIndex | ParkingLotAnnotTool/core/classifyconditions/conditionsdata.py:84-91 | when s[0] <= f, some j has s[j] <= f and, if it has a successor, f < s[j+1] |
| ConditionsData.SortedAdjacent | ParkingLotAnnotTool/core/classifyconditions/conditionsdata.py:82-91 | on a sorted non-empty list the loop and the two tails give the greatest element <= f and the least element > f, never both None (the implicit `return None` is unreachable) |
| ConditionsData.GapIsAdjacent | ParkingLotAnnotTool/core/classifyconditions/conditionsdata.py:84-86 | when f lies between neighbours s[j] <= f < s[j+1] of a sorted list, s[j] is the greatest element <= f and s[j+1] the least element > f |
| ConditionsData.BeforeAllIsAdjacent | ParkingLotAnnotTool/core/classifyconditions/conditionsdata.py:88-89 | when f is before the first element of a sorted list, nothing is <= f and the first element is the least element > f |
| ConditionsData.AfterAllIsAdjacent | ParkingLotAnnotTool/core/classifyconditions/conditionsdata.py:90-91 | when f is at or after the last element of a sorted list, the last element is the greatest element <= f and nothing is > f |
| ConditionsData.GetFramesAdjacentLabel | ParkingLotAnnotTool/core/classifyconditions/conditionsdata.py:78-91 | `get_frames_adjacent_label(f)`; FramesAdjacentSpec states its meaning |
| ConditionsData.PrevLabelFrame | ParkingLotAnnotTool/core/classifyconditions/conditionsdata.py:97-99 | `prev_label_frame()`: the first component for the current frame |
| ConditionsData.NextLabelFrame | ParkingLotAnnotTool/core/classifyconditions/conditionsdata.py:93-95 | `next_label_frame()`: the second component for the current frame |
| ConditionsData.GetLabelFindByFrame | ParkingLotAnnotTool/core/classifyconditions/conditionsdata.py:70-76 | `get_label_find_by_frame(frame, axis)`; FindByFrameFallback states its fallback |
| ConditionsData.CurrentLabel | ParkingLotAnnotTool/core/classifyconditions/conditionsdata.py:101-102 | `current_label(axis)`; CurrentLabelSpec states its meaning |
| ConditionsData.LabelGet | ParkingLotAnnotTool/core/classifyconditions/conditionsdata.py:75 | `labels.get(axis)`: the value, or None for a missing axis |
| ConditionsData.PrevLabel | ParkingLotAnnotTool/core/classifyconditions/conditionsdata.py:107-108 | `prev_label(axis)`; PrevLabelSpec states its meaning |
| ConditionsData.NextLabel | ParkingLotAnnotTool/core/classifyconditions/conditionsdata.py:104-105 | `next_label(axis)`; NextLabelSpec states its meaning |
| ConditionsData.FramesAdjacentSpec | ParkingLotAnnotTool/core/classifyconditions/conditionsdata.py:78-91 | get_frames_adjacent_label(F) is (greatest recorded frame <= F, least recorded frame > F), None on a missing side, and (None, None) exactly when there are no conditions |
| ConditionsData.InFramesIsFound | ParkingLotAnnotTool/core/classifyconditions/conditionsdata.py:73-75 | a recorded frame is found by the entry search |
| ConditionsData.FirstWithFrame | ParkingLotAnnotTool/core/classifyconditions/conditionsdata.py:73-75 | the first entry index at frame f, None exactly when no entry has it |
| ConditionsData.CurrentLabelSpec | ParkingLotAnnotTool/core/classifyconditions/conditionsdata.py:70-108 | current_label(axis) is the axis value of the entry at the greatest recorded frame <= current, or None; no further fallback if that entry lacks the axis |
| ConditionsData.PrevFrameIsFound | ParkingLotAnnotTool/core/classifyconditions/conditionsdata.py:93-99 | the frames prev_label_frame and next_label_frame return are recorded ones |
| ConditionsData.PrevLabelSpec | ParkingLotAnnotTool/core/classifyconditions/conditionsdata.py:107-108 | prev_label is the label at the greatest recorded frame <= current |
| ConditionsData.NextLabelSpec | ParkingLotAnnotTool/core/classifyconditions/conditionsdata.py:104-105 | next_label is the label at the least recorded frame > current |
| ConditionsData.FindByFrameFallback | ParkingLotAnnotTool/core/classifyconditions/conditionsdata.py:70-76 | with no entry at F the lookup is prev_label of the current frame, the same for every unrecorded F |
| ConditionsData.ConditionsStore.constructor | ParkingLotAnnotTool/core/classifyconditions/conditionsdata.py:15-28 | no entries, no times, not dirty, not loaded, frame "00000" |
| ConditionsData.ConditionsStore.Document | ParkingLotAnnotTool/core/classifyconditions/conditionsdata.py:150-158 | version "0.3" with the entries (loading them back gives the same), the three time fields and the interval |
| ConditionsData.ConditionsStore.Save | ParkingLotAnnotTool/core/classifyconditions/conditionsdata.py:150-162 | writes the document, sets loaded, clears dirty |
| ConditionsData.ConditionsStore.MaySave | ParkingLotAnnotTool/core/classifyconditions/conditionsdata.py:164-172 | saves exactly when dirty and the answer is yes |
| ConditionsData.ConditionsStore.Load | ParkingLotAnnotTool/core/classifyconditions/conditionsdata.py:33-57 | the loop upgrades the entries (UpgradeAll); times and interval from the document; clean, loaded, frame "00000", one current_frame_changed |
| ConditionsData.ConditionsStore.UpgradeEntries | ParkingLotAnnotTool/core/classifyconditions/conditionsdata.py:39-47 | the list the loop builds is UpgradeAll of the stored entries: current-form entries kept, each legacy entry turned into one with a weather label, in order |
| ConditionsData.ConditionsStore.UpdateCurrentFrame | ParkingLotAnnotTool/core/classifyconditions/conditionsdata.py:66-68 | sets the frame and emits current_frame_changed |
| ConditionsData.ConditionsStore.AddLabel | ParkingLotAnnotTool/core/classifyconditions/conditionsdata.py:129-142 | False with nothing changed when the first entry at the current frame already has the axis; else the axis is added to that entry, or a new entry appended; then dirty and True |
| ConditionsData.ConditionsStore.SetInitialTime | ParkingLotAnnotTool/core/classifyconditions/conditionsdata.py:186-187 | sets the initial time only; dirty untouched |
| ConditionsData.ConditionsStore.SetDayStartTime | ParkingLotAnnotTool/core/classifyconditions/conditionsdata.py:192-193 | sets the day start time only; dirty untouched |
| ConditionsData.ConditionsStore.SetNightStartTime | ParkingLotAnnotTool/core/classifyconditions/conditionsdata.py:198-199 | sets the night start time only; dirty untouched |
| ConditionsData.AddLabelIsFound | ParkingLotAnnotTool/core/classifyconditions/conditionsdata.py:129-142 | after a successful add_label the current label of that axis is the added value |
| ConditionsData.FirstWithFrameSameFrames | ParkingLotAnnotTool/core/classifyconditions/conditionsdata.py:130-131 | lists with the same frames find the same first entry |
| ConditionsData.FirstWithFrameAppend | ParkingLotAnnotTool/core/classifyconditions/conditionsdata.py:136-140 | an appended entry with a new frame is the first at that frame |
| ConditionsData.AddLabelKeepsUniqueFrames | ParkingLotAnnotTool/core/classifyconditions/conditionsdata.py:129-142 | if frames were unique they stay unique |
| ImgCrop.ArgMinX | ParkingLotAnnotTool/core/definequad/imgcrop.py:54-55 | `min(..., key=x)`: the first point of least x |
| ImgCrop.ArgMaxX | ParkingLotAnnotTool/core/definequad/imgcrop.py:57-58 | `max(..., key=x)`: the first point of greatest x |
| ImgCrop.ArgMinY | ParkingLotAnnotTool/core/definequad/imgcrop.py:60-61 | a point of least y (the evidently intended key of get_ymin) |
| ImgCrop.ArgMaxY | ParkingLotAnnotTool/core/definequad/imgcrop.py:63-64 | a point of greatest y (the evidently intended key of get_ymax) |
| ImgCrop.XMin | ParkingLotAnnotTool/core/definequad/imgcrop.py:54-55 | get_xmin is the least x of the points and is attained |
| ImgCrop.XMax | ParkingLotAnnotTool/core/definequad/imgcrop.py:57-58 | get_xmax is the greatest x of the points and is attained |
| ImgCrop.YMin | ParkingLotAnnotTool/core/definequad/imgcrop.py:60-61 | corrected get_ymin: the least y, attained |
| ImgCrop.YMax | ParkingLotAnnotTool/core/definequad/imgcrop.py:63-64 | corrected get_ymax: the greatest y, attained |
| ImgCrop.YMinAsWritten | ParkingLotAnnotTool/core/definequad/imgcrop.py:60-61 | `get_ymin` as written: the y of the first point of least x |
| ImgCrop.YMaxAsWritten | ParkingLotAnnotTool/core/definequad/imgcrop.py:63-64 | `get_ymax` as written: the y of the first point of greatest x |
| ImgCrop.Scaled | ParkingLotAnnotTool/core/definequad/imgcrop.py:94-96 | the list comprehension: every point shifted by the offset and scaled by the two factors |
| ImgCrop.ResizedContoursAsWritten | ParkingLotAnnotTool/core/definequad/imgcrop.py:81-96 | `get_resized_contours` as written, None for its ZeroDivisionError; AsWrittenRejectsDrawnRectangles states where it fails |
| ImgCrop.ResizedContours | ParkingLotAnnotTool/core/definequad/imgcrop.py:81-96 | the corrected `get_resized_contours`; ResizedContoursFillBox states its meaning |
| ImgCrop.Rescaled | ParkingLotAnnotTool/core/definequad/imgcrop.py:86-96 | fails (ZeroDivisionError) exactly for zero height or width; else each point shifted by the offset (box corner or origin) and scaled by size / extent, one per point |
| ImgCrop.NonNegativeProduct | ParkingLotAnnotTool/core/definequad/imgcrop.py:96 | the scaled offset of a point inside the box is not negative |
| ImgCrop.ScaleIntoRange | ParkingLotAnnotTool/core/definequad/imgcrop.py:94-96 | a coordinate between the box edges maps into [0, size], the edges onto 0 and size |
| ImgCrop.RescaledFillsBox | ParkingLotAnnotTool/core/definequad/imgcrop.py:81-96 | with offset and a non-degenerate box holding every point, every resized point lies in the model image and the box edges land on its edges |
| ImgCrop.ResizedContoursFillBox | ParkingLotAnnotTool/core/definequad/imgcrop.py:81-96 | corrected get_resized_contours maps the bounding box onto [0, W] x [0, H]; it fails exactly for a box of zero width or height |
| ImgCrop.AsWrittenRejectsRectangle | ParkingLotAnnotTool/core/definequad/imgcrop.py:60-64 | as written, an axis-aligned rectangle listed clockwise from its top-left corner has ymin == ymax and fails; corrected, it maps to the image corners |
| ImgCrop.AsWrittenRejectsDrawnRectangles | ParkingLotAnnotTool/core/definequad/imgcrop.py:81-96 | every lot drawn on the canvas with positive width fails to crop as written; with positive height too the corrected crop maps its corners to the corners of the 224 x 224 image |
| ImgCrop.Progress | ParkingLotAnnotTool/core/definequad/imgcrop.py:46 | the progress after frame i of total is below 100 |
| ImgCrop.ProgressMonotone | ParkingLotAnnotTool/core/definequad/imgcrop.py:46-47 | progress never decreases during a run |
| ImgCrop.DivMonotone | ParkingLotAnnotTool/core/definequad/imgcrop.py:46 | integer division by a positive total is monotone |
| ImgCrop.FrameWrites | ParkingLotAnnotTool/core/definequad/imgcrop.py:40-44 | one write per lot, in lot order, named `<lot id>/<frame name>` |
| ImgCrop.WritesFor | ParkingLotAnnotTool/core/definequad/imgcrop.py:34-44 | the crops of a sequence of frames; WritesForLength and WritesForAt state their count and order |
| ImgCrop.WritesForLength | ParkingLotAnnotTool/core/definequad/imgcrop.py:34-44 | the frames write exactly frames x lots crops |
| ImgCrop.WritesForAt | ParkingLotAnnotTool/core/definequad/imgcrop.py:34-44 | write k x lots + j is lot j's crop of frame k |
| ImgCrop.ProgressEvents | ParkingLotAnnotTool/core/definequad/imgcrop.py:46-47 | event i is the progress of frame i |
| ImgCrop.WritesForStep | ParkingLotAnnotTool/core/definequad/imgcrop.py:34-44 | one more frame appends its writes |
| ImgCrop.ProgressEventsStep | ParkingLotAnnotTool/core/definequad/imgcrop.py:46-47 | one more frame appends its progress event |
| ImgCrop.CancelIndex | ParkingLotAnnotTool/core/definequad/imgcrop.py:34-37 | the first iteration whose check sees the cancel flag, or the frame count if none does |
| ImgCrop.CancelIndexIs | ParkingLotAnnotTool/core/definequad/imgcrop.py:34-37 | the iteration where the flag first shows is the cancel index |
| ImgCrop.Croppable | ParkingLotAnnotTool/core/definequad/imgcrop.py:81-96 | with the corrected y-bounds: a lot whose corners neither share one x nor share one y |
| ImgCrop.CroppableIsResized | ParkingLotAnnotTool/core/definequad/imgcrop.py:81-96 | a lot is croppable exactly when the corrected get_resized_contours of its corners does not divide by zero |
| ImgCrop.CroppableLots | ParkingLotAnnotTool/core/definequad/imgcrop.py:40-43 | with the corrected y-bounds: one croppable flag per lot |
| ImgCrop.FirstFalse | ParkingLotAnnotTool/core/definequad/imgcrop.py:40-43 | the first index from j holding false, or the length: everything before it holds |
| ImgCrop.FirstFalseIs | ParkingLotAnnotTool/core/definequad/imgcrop.py:40-43 | an index with everything before it true and itself false (or the end) is the first false |
| ImgCrop.CropSucceeds | ParkingLotAnnotTool/core/definequad/imgcrop.py:43 | with the corrected y-bounds: whether `imgcrop` of lot j returns: exactly its croppable flag |
| ImgCrop.FrameWritesStep | ParkingLotAnnotTool/core/definequad/imgcrop.py:40-44 | one more lot appends its crop to the frame's writes |
| ImgCrop.FirstUncroppable | ParkingLotAnnotTool/core/definequad/imgcrop.py:40-43 | with the corrected y-bounds: the first lot whose crop raises, or the number of lots |
| ImgCrop.FirstUncroppableMeaning | ParkingLotAnnotTool/core/definequad/imgcrop.py:40-43 | with the corrected y-bounds: every lot before it can be cropped and it cannot |
| ImgCrop.RunOk | ParkingLotAnnotTool/core/definequad/imgcrop.py:27-49 | with the corrected y-bounds: run returns normally exactly when frame 0 is not processed or every lot can be cropped |
| ImgCrop.RunWrites | ParkingLotAnnotTool/core/definequad/imgcrop.py:27-49 | with the corrected y-bounds: the crops of a run: those of the frames before the cancel index, or on a raise those of frame 0 up to the lot that raises |
| ImgCrop.RunEvents | ParkingLotAnnotTool/core/definequad/imgcrop.py:27-49 | with the corrected y-bounds: the signals of a run: the progress of the frames before the cancel index and then `canceled` or `finished`; none on a raise |
| ImgCrop.RunCanceledAt | ParkingLotAnnotTool/core/definequad/imgcrop.py:34-37 | with the corrected y-bounds: a run whose check at frame i sees the flag writes the crops of the first i frames and emits their progress and `canceled` |
| ImgCrop.RunRaised | ParkingLotAnnotTool/core/definequad/imgcrop.py:39-44 | with the corrected y-bounds: a run that reaches frame 0 with an uncroppable lot writes the crops of the lots before it in frame 0 and emits nothing |
| ImgCrop.RunFinished | ParkingLotAnnotTool/core/definequad/imgcrop.py:34-49 | with the corrected y-bounds: a run that processes every frame writes all their crops and emits every progress and `finished` |
| ImgCrop.CropLots | ParkingLotAnnotTool/core/definequad/imgcrop.py:40-44 | with the corrected y-bounds: the lot loop of one frame: ok exactly when every lot can be cropped, and the crops of the lots before the first that cannot |
| ImgCrop.ImageCropWorker.constructor | ParkingLotAnnotTool/core/definequad/imgcrop.py:17-25 | emits progress 0, not canceled, nothing written |
| ImgCrop.ImageCropWorker.Cancel | ParkingLotAnnotTool/core/definequad/imgcrop.py:51-52 | sets the flag and nothing else |
| ImgCrop.ImageCropWorker.Run | ParkingLotAnnotTool/core/definequad/imgcrop.py:27-49 | with the corrected y-bounds: one directory per lot; ok exactly when the run does not raise: some lot cannot be cropped and frame 0 is processed makes it raise there after the crops of the lots before it, with no signal; otherwise the frames before the cancel index each write one crop per lot and emit their progress, then `canceled` if the flag was seen, else `finished` |
| ImgCrop.ImageCropWorker.ProcessFrame | ParkingLotAnnotTool/core/definequad/imgcrop.py:39-47 | with the corrected y-bounds: one turn of the frame loop writes the crops of the lots before the first uncroppable one; ok exactly when every lot can be cropped, and only then one progress event with the percentage of the frame index |
| ImgCrop.ImageCropWorker.MakeDirs | ParkingLotAnnotTool/core/definequad/imgcrop.py:28-30 | one directory per lot id, in order |
| ImgCrop.ImageCropWorker.CropFrame | ParkingLotAnnotTool/core/definequad/imgcrop.py:39-44 | with the corrected y-bounds: the crops of the frame, lot by lot, up to the first lot whose crop raises; ok exactly when there is none |
| ImgCrop.RunCounts | ParkingLotAnnotTool/core/definequad/imgcrop.py:27-49 | with the corrected y-bounds: a normal run writes (processed frames) x lots crops and emits one progress event per processed frame plus one final signal; a raising run has frames, an uncroppable lot, writes as many crops as lots precede it and emits nothing; `finished` is emitted exactly when there are no frames, or no check saw the flag and every lot can be cropped |
| OffsetFrameNumber.NewFrameValue | tools/offset_frame_number.py:38-40 | for a plain numeral and a non-negative result the new frame is all digits, has value old + offset, keeps at least the old width and ends in the full numeral |
| OffsetFrameNumber.NewFrameByZero | tools/offset_frame_number.py:38-40 | offset 0 gives back the same frame string for a plain numeral |
| OffsetFrameNumber.RenumberList | tools/offset_frame_number.py:34-40 | a list keeps its length |
| OffsetFrameNumber.RenumberMap | tools/offset_frame_number.py:33-40 | the lot keys are kept |
| OffsetFrameNumber.RenumberLists | tools/offset_frame_number.py:33-49 | ok exactly when `int()` accepts every frame; then every entry is renumbered by the rule |
| OffsetFrameNumber.RenumberDocument | tools/offset_frame_number.py:31-52 | ok exactly when the file has difficult_frames and `int()` accepts every frame; then the document with both maps renumbered |
| OffsetFrameNumber.RenumberedEntries | tools/offset_frame_number.py:33-49 | frames of value 0 are kept (the `continue`), others become str(int(s) + offset).zfill(len(s)); labels, flags, lengths, keys and the other fields are untouched |
| OffsetFrameNumber.RenumberedByZero | tools/offset_frame_number.py:33-52 | with offset 0 a file whose frames are plain numerals is written back unchanged |
| OffsetFrameNumber.TrimStart | tools/offset_frame_number.py:36 | the leading whitespace `int()` strips: the result is no longer than s |
| OffsetFrameNumber.TrimEnd | tools/offset_frame_number.py:36 | the trailing whitespace `int()` strips |
| OffsetFrameNumber.Strip | tools/offset_frame_number.py:36 | the whitespace `int()` strips at both ends; StripKeeps states it is the identity without edge whitespace |
| OffsetFrameNumber.Underscoreless | tools/offset_frame_number.py:36 | the digits of a digit-group string with its underscores dropped: a non-empty digit string |
| OffsetFrameNumber.DigitsAreGroups | tools/offset_frame_number.py:36 | a non-empty digit string is a digit-group string with no underscore |
| OffsetFrameNumber.PyInt | tools/offset_frame_number.py:36-38 | `int(s)` on ASCII text: stripped, optional sign, digit groups joined by single underscores; None for ValueError |
| OffsetFrameNumber.StripKeeps | tools/offset_frame_number.py:36 | a text with no whitespace at either end is not changed by stripping |
| OffsetFrameNumber.PyIntOfDigits | tools/offset_frame_number.py:36 | a plain numeral reads as its decimal value |
| OffsetFrameNumber.PyIntOfNegative | tools/offset_frame_number.py:38 | a minus sign and digits read as the negated value |
| OffsetFrameNumber.PyIntSigned | tools/offset_frame_number.py:36 | a sign and one digit read as the signed digit |
| OffsetFrameNumber.PyIntAccepts | tools/offset_frame_number.py:36-38 | "+5", "-3", " 7" and "1_0" read as 5, -3, 7 and 10 |
| OffsetFrameNumber.PyIntBlank | tools/offset_frame_number.py:36 | " 7" reads as 7 |
| OffsetFrameNumber.PyIntUnderscore | tools/offset_frame_number.py:36 | "1_0" reads as 10 |
| OffsetFrameNumber.PyIntRejects | tools/offset_frame_number.py:36 | "1__0", "_1", "" and "-" raise ValueError |
| OffsetFrameNumber.NewFrame | tools/offset_frame_number.py:38-39 | `str(int(s) + offset).zfill(len(s))`; NewFrameRoundTrip states its meaning |
| OffsetFrameNumber.RenumberEntry | tools/offset_frame_number.py:35-40 | one entry: kept when its frame reads as 0, else its frame becomes NewFrame; RenumberedEntries states it |
| OffsetFrameNumber.NewFrameRoundTrip | tools/offset_frame_number.py:38-40 | int() reads the new frame back as int(s) + offset, for either sign, and the new frame is at least as wide as the old |
| OffsetFrameNumber.ZFillNatRoundTrip | tools/offset_frame_number.py:39 | `int(str(n).zfill(w)) == n` for n >= 0, and the result is at least w wide |
| OffsetFrameNumber.ZFillNegativeRoundTrip | tools/offset_frame_number.py:39 | `int(str(n).zfill(w)) == n` for n < 0, the zeros going after the sign |
| OffsetFrameNumber.NewFrameNormalises | tools/offset_frame_number.py:38-40 | a signed frame is rewritten even by offset 0: "+5" becomes "05" |
| OffsetFrameNumber.NumeralsAreInts | tools/offset_frame_number.py:36 | a map whose frames are plain numerals has only frames int() accepts |
| OffsetFrameNumber.Renumbered | tools/offset_frame_number.py:31-52 | the file main writes, or None where it raises; RenumberedEntries states its entries |
| PresetToLotsData.Get | tools/preset_to_lotsdata.py:26 | `data[key]` succeeds exactly on an object with that key and gives its member |
| PresetToLotsData.Elements | tools/preset_to_lotsdata.py:42 | iterating a list walks its items |
| PresetToLotsData.NestedValue | tools/preset_to_lotsdata.py:23-27 | no keys give the value itself; a missing first key fails |
| PresetToLotsData.GetNestedValue | tools/preset_to_lotsdata.py:23-27 | the loop computes the nested lookup, failing where a key is missing |
| PresetToLotsData.NestedValueAppend | tools/preset_to_lotsdata.py:23-27 | looking up k1 then k2 is looking up k1 + k2 |
| PresetToLotsData.LotOf | tools/preset_to_lotsdata.py:51-57 | a converted lot has the entry's id and its first 8 quad numbers in order |
| PresetToLotsData.LotsOf | tools/preset_to_lotsdata.py:50-57 | all entries convert exactly when each does; one lot per entry, in order |
| PresetToLotsData.CameraLots | tools/preset_to_lotsdata.py:48-49 | the lots of the first preset, or None where a lookup raises |
| PresetToLotsData.RFind | tools/preset_to_lotsdata.py:46 | `rfind`: -1 or an index holding the character |
| PresetToLotsData.Suffix | tools/preset_to_lotsdata.py:46 | pathlib's `suffix` of a name: empty, or a '.' that is neither the first nor the last character followed by the rest |
| PresetToLotsData.WithSuffix | tools/preset_to_lotsdata.py:46 | `with_suffix`: the name without its Suffix, then the new suffix; WithSuffixAppends states it |
| PresetToLotsData.WithSuffixAppends | tools/preset_to_lotsdata.py:46 | a name with no '.' gets the suffix appended |
| PresetToLotsData.OutputFile | tools/preset_to_lotsdata.py:46 | `(output_dir / name).with_suffix(".json")`, relative to output_dir |
| PresetToLotsData.OutputFileAppends | tools/preset_to_lotsdata.py:46 | a camera name with no '.' is saved as name + ".json" |
| PresetToLotsData.OutputFilesCollide | tools/preset_to_lotsdata.py:46 | cameras "a.1" and "a.2" are both saved to "a.json" |
| PresetToLotsData.Disk | tools/preset_to_lotsdata.py:42-59 | the output files after the saves in order: one per distinct name, the last save under a name wins |
| PresetToLotsData.DiskLastWins | tools/preset_to_lotsdata.py:42-59 | a file holds what its last save wrote |
| PresetToLotsData.CameraFile | tools/preset_to_lotsdata.py:43-58 | the output file and document of one camera, or None where it raises; CameraFileLots states its contents |
| PresetToLotsData.UntilNoneMeaning | tools/preset_to_lotsdata.py:42-59 | the files written are the cameras' files in order up to the first that raises; ok exactly when none raises |
| PresetToLotsData.UntilNone | tools/preset_to_lotsdata.py:42-59 | the outcomes of the cameras from i up to the first raise; UntilNoneMeaning states it |
| PresetToLotsData.Converted | tools/preset_to_lotsdata.py:42-59 | what main writes for a preset file; UntilNoneMeaning states its meaning |
| PresetToLotsData.UntilNoneStep | tools/preset_to_lotsdata.py:42-59 | one camera turn either stops or appends its file |
| PresetToLotsData.CameraFiles | tools/preset_to_lotsdata.py:42-59 | one outcome per camera, in order |
| PresetToLotsData.Convert | tools/preset_to_lotsdata.py:30-59 | main writes the camera files up to the first failure; no `cameras` list fails at once |
| PresetToLotsData.ConvertCameras | tools/preset_to_lotsdata.py:42-59 | the camera loop writes the files up to the first camera that raises |
| PresetToLotsData.ConvertCamera | tools/preset_to_lotsdata.py:43-58 | a fresh LotsData with the camera's output file as JSON path, filled by add_lot from presets[0] and saved: exactly the camera's file |
| PresetToLotsData.SaveLots | tools/preset_to_lotsdata.py:43-58 | the store filled by add_lot and saved: None exactly when the lots lookup or one entry fails, else the version "0.1" document of the converted lots |
| PresetToLotsData.AddEntry | tools/preset_to_lotsdata.py:52-57 | add_lot with the entry's id and eight numbers appends that lot |
| PresetToLotsData.CameraFileLots | tools/preset_to_lotsdata.py:43-58 | a file is saved under the camera name with its suffix replaced by ".json", has version "0.1" and no image path, and holds the first preset's lots in order with their ids and 8 numbers |
| Common.PyIndex | ParkingLotAnnotTool/core/definequad/lotsdata.py:147 | a Python list index is valid exactly in [-n, n); a negative one counts from the end |
| Common.RemoveAt | ParkingLotAnnotTool/core/definequad/lotsdata.py:147 | `pop(k)`: one element shorter, everything before k kept, everything after moved down one |
| Common.LexLe | ParkingLotAnnotTool/core/classifyscene/scenedata.py:112 | Python's `<=` on str: a prefix, or the first differing character smaller; the LexLe lemmas state it is a total order |
| Common.LexLt | ParkingLotAnnotTool/core/classifyscene/scenedata.py:114 | Python's `<` on str, the negation of the reversed `<=`; LexLtIsStrict states it |
| Common.LexLeReflexive | ParkingLotAnnotTool/core/classifyconditions/conditionsdata.py:82-86 | Python's `<=` on str is reflexive |
| Common.LexLeAntisymmetric | ParkingLotAnnotTool/core/classifyconditions/conditionsdata.py:82-86 | and antisymmetric |
| Common.LexLeTransitive | ParkingLotAnnotTool/core/classifyconditions/conditionsdata.py:82-86 | and transitive |
| Common.LexLeTotal | ParkingLotAnnotTool/core/classifyconditions/conditionsdata.py:82-86 | and total, so `sorted` and `sort` have a well-defined result |
| Common.LexLtIsStrict | ParkingLotAnnotTool/core/classifyconditions/conditionsdata.py:85 | `<` on str is `<=` without equality |
| Common.LexLtLeTransitive | ParkingLotAnnotTool/core/classifyscene/scenedata.py:114 | a < b <= c gives a < c |
| Common.DigitValue | tools/offset_frame_number.py:36 | a digit's value is below 10 |
| Common.DigitChar | ParkingLotAnnotTool/core/classifyscene/seekbar.py:77 | the digit character of d reads back as d |
| Common.Pow10 | tools/offset_frame_number.py:36 | powers of ten are positive |
| Common.NatToStr | tools/offset_frame_number.py:39 | `str(n)` for n >= 0 is a non-empty digit string |
| Common.Zeros | tools/offset_frame_number.py:39 | the zfill padding: k zeros |
| Common.ParseDigitsBound | tools/offset_frame_number.py:36 | `int(s)` of k digits is below 10^k |
| Common.ParseDigitsAppend | tools/offset_frame_number.py:36 | one more digit multiplies by ten and adds it |
| Common.ParseNatToStr | tools/offset_frame_number.py:38-39 | `int(str(n)) == n` |
| Common.NatToStrOfCanonical | tools/offset_frame_number.py:38-39 | a numeral without a leading zero is `str` of its value |
| Common.NatToStrLength | ParkingLotAnnotTool/core/classifyscene/seekbar.py:77 | n < 10^k has at most k digits |
| Common.ParseLeadingZeros | tools/offset_frame_number.py:39 | leading zeros do not change `int()` |
| Common.DigitsOrderIsNumeric | ParkingLotAnnotTool/core/classifyscene/scenedata.py:93 | for digit strings of one width, str order is numeric order |
| Common.FrameStringDigits | ParkingLotAnnotTool/core/classifyscene/seekbar.py:76-77 | `f"{n:05d}"` for n < 100000 is 5 digits reading back as n |
| Common.ParseDigits | tools/offset_frame_number.py:36 | `int(s)` of a digit string; ParseDigitsBound and ZFillOfParse state its properties |
| Common.IntToStr | tools/offset_frame_number.py:39 | `str(n)`; ZFillNat and ZFillNegative state what zfill of it reads back as |
| Common.ZFill | tools/offset_frame_number.py:39 | `s.zfill(w)`, the sign kept in front; ZFillNat, ZFillNegative and ZFillPadOne state its properties |
| Common.FrameString | ParkingLotAnnotTool/core/classifyscene/seekbar.py:76-77 | `f"{n:05d}"`; FrameStringDigits, FrameStringValue and FrameStringOrder state its properties |
| Common.FrameStringOrder | ParkingLotAnnotTool/core/classifyscene/seekbar.py:76-77 | 5-digit frame names compare as their frame numbers |
| Common.ZFillNat | tools/offset_frame_number.py:39 | `str(n).zfill(w)`: all digits, value n, width max(len(str(n)), w), ends in str(n) |
| Common.ZFillNegative | tools/offset_frame_number.py:39 | for n < 0 the minus sign stays in front of the padding |
| Common.FrameStringValue | ParkingLotAnnotTool/core/classifyscene/seekbar.py:76-77 | `f"{n:05d}"` has at least 5 characters, reads back as n for n >= 0 and as "-" then -n for n < 0 |
| Common.ZFillPadOne | tools/offset_frame_number.py:39 | one more place of width adds one '0' in front |
| Common.ZFillOfParse | tools/offset_frame_number.py:36-39 | `str(int(s)).zfill(len(s)) == s` for every digit string of non-zero value |
| Common.InsertByKey | ParkingLotAnnotTool/core/classifyscene/scenedata.py:93 | inserting adds one element |
| Common.SortByKey | ParkingLotAnnotTool/core/classifyscene/scenedata.py:93 | sorting keeps the length |
| Common.InsertByKeyPermutes | ParkingLotAnnotTool/core/classifyscene/scenedata.py:93 | inserting adds x and keeps every element |
| Common.SortByKeyPermutes | ParkingLotAnnotTool/core/classifyscene/scenedata.py:93 | `sort(key=...)` is a permutation |
| Common.InsertByKeyBound | ParkingLotAnnotTool/core/classifyscene/scenedata.py:93 | a common lower bound still bounds everything after the insertion |
| Common.InsertByKeySorted | ParkingLotAnnotTool/core/classifyscene/scenedata.py:93 | inserting into a sorted list keeps it sorted |
| Common.SortByKeySorted | ParkingLotAnnotTool/core/classifyconditions/conditionsdata.py:82 | the result is sorted by the key |
| Common.SortByKeyOfSorted | ParkingLotAnnotTool/core/classifyscene/scenedata.py:93 | sorting a sorted list changes nothing |
| Common.WithKey | ParkingLotAnnotTool/core/classifyscene/scenedata.py:93 | the elements of a list with key k, in order |
| Common.InsertByKeyWithKey | ParkingLotAnnotTool/core/classifyscene/scenedata.py:93 | inserting x puts it in front of the old elements of its own key and changes no other key's elements |
| Common.SortByKeyStable | ParkingLotAnnotTool/core/classifyscene/scenedata.py:93 | `sort(key=...)` is stable: the elements of each key keep their order |
| Common.PathString | ParkingLotAnnotTool/core/classifyscene/scenedata.py:237 | `str(path)` of a loaded path is the path itself |
| Common.FrameNames | ParkingLotAnnotTool/core/classifyscene/scenedata.py:186-187 | one name `f'{i:05d}.jpg'` per frame, in order |
| Common.FrameNamesOrdered | ParkingLotAnnotTool/core/classifyscene/scenedata.py:186-187 | up to 100000 frames the names are strictly increasing in str order and their first 5 characters read back as the frame number |
| Common.LexLeCommonSuffix | ParkingLotAnnotTool/core/classifyscene/scenedata.py:187 | appending the same suffix to strings of one length keeps their order |
| QtSlider.Emitted | ParkingLotAnnotTool/core/classifyscene/seekbar.py:16 | at most one emission, exactly when the value changes, carrying the new value |
| QtSlider.Slider.constructor | ParkingLotAnnotTool/core/classifyscene/seekbar.py:12 | a new slider has range 0..99 and value 0 |
| QtSlider.Slider.SetValue | ParkingLotAnnotTool/core/classifyscene/seekbar.py:15 | the value bounded into the range; emitted once exactly when it changed |
| QtSlider.Slider.SetRange | ParkingLotAnnotTool/core/classifyscene/seekbar.py:13-14 | the maximum raised to the minimum if below it; the value re-bounded, a change emitted |
| QtSlider.Slider.SetMinimum | ParkingLotAnnotTool/core/classifyscene/seekbar.py:13 | the new minimum, the maximum raised to it if needed, the value re-bounded |
| QtSlider.Slider.SetMaximum | ParkingLotAnnotTool/core/classifyscene/seekbar.py:14 | the new maximum, the minimum lowered to it if needed, the value re-bounded |
| SceneSeekBar.Stepped | ParkingLotAnnotTool/core/classifyscene/seekbar.py:56 | the step `setValue(max(v + increment, minimum))`: never below the minimum, within a non-empty range, exact when it stays in range, else stops at the end |
| SceneSeekBar.AfterTicks | ParkingLotAnnotTool/core/classifyscene/seekbar.py:58-61 | the value after k timer ticks; TicksMove states it |
| SceneSeekBar.Released | ParkingLotAnnotTool/core/classifyscene/seekbar.py:52-56 | the value after the release: one step unless a tick was seen; PressReleaseMoves states it |
| SceneSeekBar.TicksMove | ParkingLotAnnotTool/core/classifyscene/seekbar.py:58-61 | k timer ticks from a value in range move by k, stopping at the end of the range |
| SceneSeekBar.PressReleaseMoves | ParkingLotAnnotTool/core/classifyscene/seekbar.py:42-61 | a short click moves one frame, a long press one per tick, never past either end |
| SceneSeekBar.SeekBarWidget.constructor | ParkingLotAnnotTool/core/classifyscene/seekbar.py:9-33 | slider range 0..100 at 0, no marks, increment 0, no long press, timer stopped |
| SceneSeekBar.SeekBarWidget.StartNextTimer | ParkingLotAnnotTool/core/classifyscene/seekbar.py:42-45 | increment +1, long press cleared, timer running |
| SceneSeekBar.SeekBarWidget.StartPrevTimer | ParkingLotAnnotTool/core/classifyscene/seekbar.py:47-50 | increment -1, long press cleared, timer running |
| SceneSeekBar.SeekBarWidget.StopTimerAndUpdate | ParkingLotAnnotTool/core/classifyscene/seekbar.py:52-56 | timer stopped; one step unless a tick was seen; a change emitted |
| SceneSeekBar.SeekBarWidget.UpdateIndex | ParkingLotAnnotTool/core/classifyscene/seekbar.py:58-61 | long press set and one step taken |
| SceneSeekBar.SeekBarWidget.ResetScenes | ParkingLotAnnotTool/core/classifyscene/seekbar.py:63-65 | both mark sets emptied |
| SceneSeekBar.SeekBarWidget.SetMaxValue | ParkingLotAnnotTool/core/classifyscene/seekbar.py:70-71 | the slider's new maximum, value re-bounded |
| SceneSeekBar.SeekBarWidget.GetValue | ParkingLotAnnotTool/core/classifyscene/seekbar.py:73-74 | the slider value, within its range |
| SceneSeekBar.SeekBarWidget.GetValueStr | ParkingLotAnnotTool/core/classifyscene/seekbar.py:76-77 | `f"{value:05d}"`: 5 digits reading back as the value for 0..99999, a sign in front for negatives |
| SceneSeekBar.SeekBarWidget.SetValue | ParkingLotAnnotTool/core/classifyscene/seekbar.py:79-80 | the value bounded into the range |
| SceneSeekBar.SeekBarWidget.AddBusyScene | ParkingLotAnnotTool/core/classifyscene/seekbar.py:82-83 | the current value added to the busy set |
| SceneSeekBar.SeekBarWidget.AddFreeScene | ParkingLotAnnotTool/core/classifyscene/seekbar.py:85-86 | the current value added to the free set |
| SceneSeekBar.SeekBarWidget.RemoveBusyScene | ParkingLotAnnotTool/core/classifyscene/seekbar.py:88-89 | the value removed; KeyError (ok false) exactly when it was not there |
| SceneSeekBar.SeekBarWidget.RemoveFreeScene | ParkingLotAnnotTool/core/classifyscene/seekbar.py:91-92 | the value removed; KeyError exactly when it was not there |
| ConditionsSeekBar.SeekBarWidget.constructor | ParkingLotAnnotTool/core/classifyconditions/seekbar.py:9-33 | slider range 0..100 at 0, four empty mark sets, no press in progress |
| ConditionsSeekBar.SeekBarWidget.StartNextTimer | ParkingLotAnnotTool/core/classifyconditions/seekbar.py:42-45 | increment +1, long press cleared, timer running |
| ConditionsSeekBar.SeekBarWidget.StartPrevTimer | ParkingLotAnnotTool/core/classifyconditions/seekbar.py:47-50 | increment -1, long press cleared, timer running |
| ConditionsSeekBar.SeekBarWidget.StopTimerAndUpdate | ParkingLotAnnotTool/core/classifyconditions/seekbar.py:52-56 | timer stopped; one step unless a tick was seen |
| ConditionsSeekBar.SeekBarWidget.UpdateIndex | ParkingLotAnnotTool/core/classifyconditions/seekbar.py:58-61 | long press set and one step taken |
| ConditionsSeekBar.SeekBarWidget.ResetConditions | ParkingLotAnnotTool/core/classifyconditions/seekbar.py:63-65 | all four mark sets emptied |
| ConditionsSeekBar.SeekBarWidget.SetMaxValue | ParkingLotAnnotTool/core/classifyconditions/seekbar.py:70-71 | the slider's new maximum, value re-bounded |
| ConditionsSeekBar.SeekBarWidget.GetValue | ParkingLotAnnotTool/core/classifyconditions/seekbar.py:73-74 | the slider value, within its range |
| ConditionsSeekBar.SeekBarWidget.GetValueStr | ParkingLotAnnotTool/core/classifyconditions/seekbar.py:76-77 | `f"{value:05d}"` with its value read back |
| ConditionsSeekBar.SeekBarWidget.SetValue | ParkingLotAnnotTool/core/classifyconditions/seekbar.py:79-80 | the value bounded into the range |
| ConditionsSeekBar.SeekBarWidget.AddSunnyCondition | ParkingLotAnnotTool/core/classifyconditions/seekbar.py:82-83 | the current value added to the sunny set |
| ConditionsSeekBar.SeekBarWidget.AddRainyCondition | ParkingLotAnnotTool/core/classifyconditions/seekbar.py:85-86 | the current value added to the rainy set |
| ConditionsSeekBar.SeekBarWidget.AddDayCondition | ParkingLotAnnotTool/core/classifyconditions/seekbar.py:88-89 | the current value added to the day set |
| ConditionsSeekBar.SeekBarWidget.AddNightCondition | ParkingLotAnnotTool/core/classifyconditions/seekbar.py:91-92 | the current value added to the night set |
| ConditionsSeekBar.SeekBarWidget.RemoveSunnyCondition | ParkingLotAnnotTool/core/classifyconditions/seekbar.py:94-95 | removed; KeyError exactly when absent |
| ConditionsSeekBar.SeekBarWidget.RemoveRainyCondition | ParkingLotAnnotTool/core/classifyconditions/seekbar.py:97-98 | removed; KeyError exactly when absent |
| ConditionsSeekBar.SeekBarWidget.RemoveDayCondition | ParkingLotAnnotTool/core/classifyconditions/seekbar.py:100-101 | removed; KeyError exactly when absent |
| ConditionsSeekBar.SeekBarWidget.RemoveNightCondition | ParkingLotAnnotTool/core/classifyconditions/seekbar.py:103-104 | removed; KeyError exactly when absent |
| Observable.Assigned | ParkingLotAnnotTool/core/general/observable.py:46-47 | `xs[index] = value` succeeds exactly for a valid Python index and replaces only that position |
| Observable.Deleted | ParkingLotAnnotTool/core/general/observable.py:53-54 | `del xs[index]` succeeds exactly for a valid index and removes that position |
| Observable.Item | ParkingLotAnnotTool/core/general/observable.py:50-51 | `xs[index]`: valid exactly in [-n, n), negative counting from the end |
| Observable.AssignedThenItem | ParkingLotAnnotTool/core/general/observable.py:46-51 | reading an assigned index gives the value; other positions keep theirs |
| Observable.DeletedThenItem | ParkingLotAnnotTool/core/general/observable.py:50-54 | after a delete, later elements move one place to the front |
| Observable.ObservableValue.constructor | ParkingLotAnnotTool/core/general/observable.py:15-17 | holds the initial value, nothing sent |
| Observable.ObservableValue.Get | ParkingLotAnnotTool/core/general/observable.py:19-21 | the stored value |
| Observable.ObservableValue.Set | ParkingLotAnnotTool/core/general/observable.py:5-27 | stores the value; when it differs from the old one, a `str` is sent once and any other value raises TypeError after being stored, sending nothing |
| Observable.ObservableList.constructor | ParkingLotAnnotTool/core/general/observable.py:31-33 | a copy of the elements, nothing sent |
| Observable.ObservableList.SetItem | ParkingLotAnnotTool/core/general/observable.py:46-48 | one element replaced and one notification; IndexError changes nothing |
| Observable.ObservableList.GetItem | ParkingLotAnnotTool/core/general/observable.py:50-51 | the element, or IndexError; no notification |
| Observable.ObservableList.DelItem | ParkingLotAnnotTool/core/general/observable.py:53-55 | one element removed and one notification; IndexError changes nothing |
| Observable.ObservableList.Len | ParkingLotAnnotTool/core/general/observable.py:57-58 | the number of elements |
| Observable.ObservableDict.constructor | ParkingLotAnnotTool/core/general/observable.py:62-64 | a copy of the entries, nothing sent |
| Observable.ObservableDict.SetItem | ParkingLotAnnotTool/core/general/observable.py:77-79 | the key set and one notification |
| Observable.ObservableDict.GetItem | ParkingLotAnnotTool/core/general/observable.py:81-82 | the value, or KeyError for a missing key; no notification |
| Observable.ObservableDict.DelItem | ParkingLotAnnotTool/core/general/observable.py:84-86 | the key removed and one notification; KeyError changes nothing |
| Observable.ObservableDict.Len | ParkingLotAnnotTool/core/general/observable.py:88-89 | the number of entries |

## Left out

- Qt widgets, layouts, dialogs and painting are not modelled. This covers the toolbar, the lists and info widgets, `paint_event_impl` and the seek bars' `paintEvent`. A dialog's outcome is an input of the operation that shows it.
- File and JSON I/O (`json.load`/`dump`, `cv2.imread`, globbing, `list_by_ext`) is not modelled. Loaded and saved files are document values, and the list of raw frames is a parameter.
- The answer to the "save changes?" message box is an input (`SaveAnswer`).
- PIL image work in the crop worker (crop, resize, polygon mask, composite) is a foreign library. Only the coordinate arithmetic and the loop's directory, write, progress and cancel skeleton are modelled.
- QThread concurrency is not modelled. `ImgCrop.ImageCropWorker.Run` runs sequentially. Whether the other thread has cancelled by the time of each iteration's check is an input sequence.
- Video decoding (`videoextract.py`, `tools/extract_frames.py`) and the command-line wiring are not part of this model.
- Floating point is modelled as exact real arithmetic.
- LotsData.LotStore.NearestPoint: compares squared distances instead of `** (1/2)`. The square root is monotone, so the winning vertex is the same, but the returned distance is the squared one. The hover threshold is compared the same way, and `DefineQuad.CloserIsDistance` proves that comparison equivalent.
- ImgCrop.Progress: computes `(i * 100) / total` in integer arithmetic instead of `int((i / total) * 100)` in floats. The bound and monotonicity are proved, but the float result can differ by rounding.
- `__scale_to_fit_window` is not modelled: its result is a parameter of `PictureCanvas.CanvasScroll.FitWindow`.
- The scroll-bar repositioning around the cursor in `zoom_request_impl` is not modelled.
- `CanvasPicture.set_zoom`'s `0.01 * value` is modelled as `value / 100`.
- The seek bars' 100 ms timer is only a running flag. Timer ticks are calls of `UpdateIndex`.
- The seek bars rely on Qt's `QSlider`. `QtSlider` models its documented behaviour: the range, value bounding and `valueChanged` on change. That behaviour is not code of this repository.
- `ObservableList`/`ObservableDict.__getattr__` hooking of arbitrary methods is dynamic dispatch and is not modelled. Slice indices are not modelled either.
- Notifications are records of what they report, not their formatted text.
- `get_crop_lots` / `set_crop_flag_by_idx` do not exist in `lotsdata.py`. `DefineQuad.DefineQuadWidget.ClickExtractFrames` therefore takes the crop lots as a parameter, and the crop-flag action is not modelled.
- `add_person_flag` / `add_ambiguous_flag` do not exist in `scenedata.py`, so the Person and Ambiguous actions of the scene classifier are not modelled.
- The classify-conditions widget is not part of this model. It calls `add_label` with one argument and calls absent `remove_conditions` / `remove_sunny_conditions` methods.
- Frame strings are compared as strings everywhere except `tools/offset_frame_number.py`. The numeric reading of that order is proved only for equal-width digit strings.
- Windows `ntpath` path semantics are not modelled. The extension helpers follow POSIX `os.path.splitext`.
- LotsData.LotStore.IsPointInQuad: uses the corrected triangle test `LotsData.InQuad`. As written, the point (-50,-50) and the square lot (0,0), (10,0), (10,10), (0,10) give lot 0; `LotsData.FirstLotContainingAsWrittenCounterexample` exhibits it. That point is farther than 16 from every vertex, so the code highlights, and a press selects, lot 0 where the model finds no lot.
- LotsData.FirstLotContaining: uses the corrected triangle test, like `IsPointInQuad`; the as-written scan is `LotsData.FirstLotContainingAsWritten`.
- DefineQuad.HoverResult: the lot under the cursor is found with the corrected triangle test.
- DefineQuad.HoverMeaning: states the hover result for the corrected triangle test.
- DefineQuad.Canvas.HoverAt: highlights by the corrected triangle test.
- DefineQuad.Canvas.MouseMoveEvent: its hover branch uses the corrected triangle test.
- ImgCrop.ImageCropWorker.Run: crops with the corrected y-bounds. As written, the crop of every lot drawn by the canvas divides by zero at frame 0 (`ImgCrop.AsWrittenRejectsDrawnRectangles`), so the run raises there.
- ImgCrop.RunCounts: counts the writes of the corrected crop, as `Run` does.
- ImgCrop.Croppable: judges a lot by the corrected y-bounds: a lot is croppable when its corners neither all share one x nor all share one y. As written, every lot whose first least-x and first greatest-x corners share a y, which includes every drawn rectangle, raises as well (`ImgCrop.AsWrittenRejectsDrawnRectangles`).
- ImgCrop.CroppableLots: lists the corrected croppability of each lot, like `ImgCrop.Croppable`.
- ImgCrop.CropSucceeds: states when the corrected crop returns. As written, `imgcrop` raises on every lot drawn by the canvas.
- ImgCrop.FirstUncroppable: is the first lot whose crop raises under the corrected y-bounds. As written it is lot 0 whenever lot 0 was drawn by the canvas.
- ImgCrop.FirstUncroppableMeaning: states the first raising lot under the corrected y-bounds, like `ImgCrop.FirstUncroppable`.
- ImgCrop.CropLots: is the lot loop of one frame with the corrected y-bounds, like `ImgCrop.ImageCropWorker.Run`.
- ImgCrop.RunOk: is the outcome of the run with the corrected y-bounds, like `ImgCrop.ImageCropWorker.Run`.
- ImgCrop.RunWrites: lists the writes of the run with the corrected y-bounds, like `ImgCrop.ImageCropWorker.Run`.
- ImgCrop.RunEvents: lists the signals of the run with the corrected y-bounds, like `ImgCrop.ImageCropWorker.Run`.
- ImgCrop.RunCanceledAt: describes a cancelled run with the corrected y-bounds. As written, a run over drawn lots raises at frame 0 before a later cancel check is reached.
- ImgCrop.RunRaised: judges the raising lot by the corrected y-bounds, like `ImgCrop.FirstUncroppable`.
- ImgCrop.RunFinished: describes a finished run with the corrected y-bounds. As written, a run over drawn lots with at least one frame never finishes.
- ImgCrop.ImageCropWorker.ProcessFrame: processes one frame with the corrected y-bounds, like `ImgCrop.ImageCropWorker.Run`.
- ImgCrop.ImageCropWorker.CropFrame: crops the lots of one frame with the corrected y-bounds, like `ImgCrop.ImageCropWorker.Run`.
- ClassifyScene.ClassifySceneWidget.Refresh: the picture `current_lot_img` reads is not modelled, only whether its lookup raises. The scene store holds no JSON path, so the AttributeError of `parent_dir` before any file is opened is not modelled; until a load the store has no lots, so that call fails either way.
- ClassifyScene.ClassifySceneWidget.ClickFree: only the refresh connected to data_changed is folded in; the scene list and info widgets that also listen are Qt views and are not modelled. The same holds for `ClickBusy`.
- Observable.ObservableValue.Set: compares values by structural equality. A class with its own `__eq__`, or values of different types that Python calls equal such as 1 and 1.0, are not modelled.
- OffsetFrameNumber.PyInt: models `int()` on ASCII text only. Unicode whitespace and Unicode decimal digits, which Python also accepts, are not modelled.
- PresetToLotsData.OutputFile: treats the camera name as a relative POSIX name. pathlib's normalisation is not modelled: absolute names, a trailing or doubled '/', '.' components and an empty name. Nor is the Python-version-dependent handling of a name ending in '.'.
- PresetToLotsData.LotOf: a lot whose id is not a string, or whose coordinates are not numbers, is reported as a failure. Python would copy such values into the output file unchanged.

## Findings

| source | as written | input that shows it | evidently intended | confidence | as-written member | corrected member |
|---|---|---|---|---|---|---|
| ParkingLotAnnotTool/core/definequad/lotsdata.py:162-175 | the sign check `(s < 0) != (t < 0)` lets s == 0 pass with t > 0, and for a clockwise triangle (A < 0) the test `s <= 0 and s + t >= A` puts no bound on t, so such a point is reported inside | the square lot (0,0), (10,0), (10,10), (0,10) and the point (-50,-50): its triangle (v1, v4, v3) is clockwise, s == 0 there, and `is_point_in_quad` returns lot 0 for a point outside the lot | the closed triangle for either orientation (t <= 0 and s + t >= A when A < 0) | high, not executed | LotsData.InQuadAsWrittenCounterexample | LotsData.IntersectIsClosedTriangle |
| ParkingLotAnnotTool/core/definequad/imgcrop.py:60-64 | `get_ymin` / `get_ymax` pick the point by its x (`key=lambda item: item[0]`) and return its y | any rectangle drawn by the canvas, e.g. (0,0), (10,0), (10,10), (0,10): the first point of least x and the first of greatest x share y = 0, so the height is 0 and `get_resized_contours` divides by zero | select by y (`item[1]`), so the bounding box is mapped onto the 224 x 224 image | high, not executed | ImgCrop.AsWrittenRejectsDrawnRectangles | ImgCrop.ResizedContoursFillBox |
