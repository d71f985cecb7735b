/** ParkingLotAnnotTool/core/classifyscene/scenedata.py: per lot, the list of labelled
    scenes `{label, frame, flags}` kept in frame order, the current frame, and the
    navigation between neighbouring scenes. */
module SceneData {
  import opened Common
  import LotsData

  /** One entry `{label, frame, flags}` of a lot's scene list; `tag` holds the label
      ("free", "busy" or null). */
  datatype Scene = Scene(tag: Option<string>, frame: string, flags: seq<string>)

  /** One entry `{label, frame}` of a lot's difficult-frame list. */
  datatype DifficultFrame = DifficultFrame(tag: Option<string>, frame: string)

  /** A scene file: `difficultFrames` is None when the key is absent (version 0.1). */
  datatype SceneDocument = SceneDocument(
    version: string,
    videoPath: string,
    lots: seq<LotsData.Lot>,
    scenes: map<string, seq<Scene>>,
    difficultFrames: Option<map<string, seq<DifficultFrame>>>)

  /** The Qt signals of SceneData, in the order they were emitted. */
  datatype Event = CurrentFrameChanged | SelectedLotIdxChanged | SelectedSceneIdxChanged
                 | DataLoaded | DataChanged

  /** What `scenes_with_current_lot_id` gives: None when no lot is selected, the list of
      the selected lot, or an exception (selected index out of range: IndexError; lot id
      missing from the scenes map: KeyError). */
  datatype LotScenes = NoLot | LookupFails | Scenes(id: string, list: seq<Scene>)

  const Occluded := "occluded"

  function FrameOf(s: Scene): string { s.frame }

  // ---------------------------------------------------------------------------
  // Neighbouring scenes of a frame

  /** The last index whose frame is not after `current`, or None. */
  function LastAtMost(s: seq<Scene>, current: string): (r: Option<nat>)
    ensures r.Some? <==> exists i :: 0 <= i < |s| && LexLe(s[i].frame, current)
    ensures r.Some? ==> r.value < |s| && LexLe(s[r.value].frame, current)
    ensures r.Some? ==> forall i :: r.value < i < |s| ==> LexLt(current, s[i].frame)
    decreases |s|
  {
    if |s| == 0 then None
    else if LexLe(s[|s| - 1].frame, current) then Some(|s| - 1)
    else
      var r := LastAtMost(s[..|s| - 1], current);
      assert forall i :: 0 <= i < |s| - 1 ==> s[..|s| - 1][i] == s[i];
      r
  }

  /** The pair `get_adjacent_scenes` returns, as indices into the sorted list. `prev` is
      the last entry whose frame is at most `current`; `next` has the least frame after
      `current`, and is the last of the entries sharing that frame. */
  ghost predicate AdjacentSpec(s: seq<Scene>, current: string, prev: Option<nat>, next: Option<nat>)
  {
    prev == LastAtMost(s, current) &&
    (next.Some? <==> exists i :: 0 <= i < |s| && LexLt(current, s[i].frame)) &&
    (next.Some? ==>
      next.value < |s| && LexLt(current, s[next.value].frame) &&
      (forall i :: 0 <= i < |s| && LexLt(current, s[i].frame) ==> LexLe(s[next.value].frame, s[i].frame)) &&
      (forall i :: next.value < i < |s| ==> LexLt(s[next.value].frame, s[i].frame)))
  }

  /** The loop of `get_adjacent_scenes` over the sorted list of the current lot. */
  method AdjacentScenes(s: seq<Scene>, current: string) returns (prev: Option<nat>, next: Option<nat>)
    requires SortedBy(s, FrameOf)
    ensures AdjacentSpec(s, current, prev, next)
  {
    prev, next := None, None;
    var i := 0;
    while i < |s|
      invariant 0 <= i <= |s|
      invariant prev == LastAtMost(s[..i], current)
      invariant NextInv(s, current, i, next)
    {
      LastAtMostStep(s, current, i);
      var frame := s[i].frame;
      if LexLe(frame, current) {
        prev := Some(i);
      }
      if LexLt(current, frame) {
        if next.Some? && LexLt(s[next.value].frame, frame) {
          AdjacentAtBreak(s, current, i, next.value);
          return;
        }
        NextInvStep(s, current, i, next);
        next := Some(i);
      } else {
        NextInvStep(s, current, i, next);
      }
      i := i + 1;
    }
    assert s[..i] == s;
  }

  /** What the loop of `get_adjacent_scenes` knows about `next` after i entries: it is
      the entry just seen, after `current` and not after any earlier entry that is, or
      None when no entry so far is after `current`. */
  ghost predicate NextInv(s: seq<Scene>, current: string, i: nat, next: Option<nat>)
    requires i <= |s|
  {
    (next.Some? <==> exists j :: 0 <= j < i && LexLt(current, s[j].frame)) &&
    (next.Some? ==>
      next.value + 1 == i && LexLt(current, s[next.value].frame) &&
      forall j :: 0 <= j < i && LexLt(current, s[j].frame) ==> LexLe(s[next.value].frame, s[j].frame))
  }

  /** One turn of the loop without the `break`. */
  lemma NextInvStep(s: seq<Scene>, current: string, i: nat, next: Option<nat>)
    requires SortedBy(s, FrameOf) && i < |s| && NextInv(s, current, i, next)
    requires !(LexLt(current, s[i].frame) && next.Some? && LexLt(s[next.value].frame, s[i].frame))
    ensures NextInv(s, current, i + 1, if LexLt(current, s[i].frame) then Some(i) else next)
  {
    if next.Some? {
      AfterNextIsAfter(s, current, next.value, i);
    }
    if LexLt(current, s[i].frame) {
      AdjacentNewNext(s, current, i, next);
    }
  }

  /** In a sorted list, an entry after one whose frame is after `current` is after it too. */
  lemma AfterNextIsAfter(s: seq<Scene>, current: string, n: nat, i: nat)
    requires SortedBy(s, FrameOf) && n < i < |s| && LexLt(current, s[n].frame)
    ensures LexLt(current, s[i].frame)
  {
    assert LexLe(FrameOf(s[n]), FrameOf(s[i]));
    LexLtLeTransitive(current, s[n].frame, s[i].frame);
  }

  lemma LastAtMostStep(s: seq<Scene>, current: string, i: nat)
    requires i < |s|
    ensures LastAtMost(s[..i + 1], current)
         == if LexLe(s[i].frame, current) then Some(i) else LastAtMost(s[..i], current)
  {
    assert s[..i + 1][..i] == s[..i];
  }

  /** When entry i is after `current` and not after the current candidate n (or there is
      none yet), entry i becomes the candidate: its frame is the least seen so far. */
  lemma AdjacentNewNext(s: seq<Scene>, current: string, i: nat, next: Option<nat>)
    requires SortedBy(s, FrameOf) && i < |s| && LexLt(current, s[i].frame)
    requires next.None? ==> forall j :: 0 <= j < i ==> !LexLt(current, s[j].frame)
    requires next.Some? ==> next.value < i && !LexLt(s[next.value].frame, s[i].frame)
    requires next.Some? ==> forall j :: 0 <= j < i && LexLt(current, s[j].frame) ==>
      LexLe(s[next.value].frame, s[j].frame)
    ensures forall j :: 0 <= j < i + 1 && LexLt(current, s[j].frame) ==> LexLe(s[i].frame, s[j].frame)
  {
    LexLeReflexive(s[i].frame);
    if next.Some? {
      var n := next.value;
      LexLeTotal(s[i].frame, s[n].frame);
      forall j | 0 <= j < i && LexLt(current, s[j].frame) ensures LexLe(s[i].frame, s[j].frame) {
        LexLeTransitive(s[i].frame, s[n].frame, s[j].frame);
      }
    }
  }

  /** The `break`: entry i has a frame beyond the candidate n = i - 1, so every later
      entry is too, and the candidate and the previous scene are final. */
  lemma AdjacentAtBreak(s: seq<Scene>, current: string, i: nat, n: nat)
    requires SortedBy(s, FrameOf) && n + 1 == i < |s|
    requires LexLt(current, s[n].frame) && LexLt(s[n].frame, s[i].frame)
    requires forall j :: 0 <= j < i && LexLt(current, s[j].frame) ==> LexLe(s[n].frame, s[j].frame)
    ensures AdjacentSpec(s, current, LastAtMost(s[..i], current), Some(n))
  {
    forall j | i <= j < |s| ensures LexLt(current, s[j].frame) && LexLt(s[n].frame, s[j].frame) {
      assert LexLe(FrameOf(s[i]), FrameOf(s[j])) by {
        if j > i {
          assert LexLe(FrameOf(s[i]), FrameOf(s[j]));
        } else {
          LexLeReflexive(s[i].frame);
        }
      }
      LexLtLeTransitive(s[n].frame, s[i].frame, s[j].frame);
      LexLeTotal(current, s[n].frame);
      if LexLe(s[j].frame, current) {
        LexLeTransitive(s[j].frame, current, s[n].frame);
      }
    }
    LastAtMostSuffix(s, current, i);
    forall j | 0 <= j < |s| && LexLt(current, s[j].frame)
      ensures LexLe(s[n].frame, s[j].frame)
    {
      if j >= i {
        LexLtIsStrict(s[n].frame, s[j].frame);
      }
    }
  }

  /** If every entry from `i` on is after `current`, the last entry at most `current` is
      found in the first `i` entries. */
  lemma LastAtMostSuffix(s: seq<Scene>, current: string, i: nat)
    requires i <= |s|
    requires forall j :: i <= j < |s| ==> LexLt(current, s[j].frame)
    ensures LastAtMost(s, current) == LastAtMost(s[..i], current)
    decreases |s| - i
  {
    if i < |s| {
      var t := s[..|s| - 1];
      assert t[..i] == s[..i];
      LastAtMostSuffix(t, current, i);
    } else {
      assert s[..i] == s;
    }
  }

  /** In a sorted list the previous scene holds the greatest frame not after `current`,
      and no stored frame lies strictly between the previous and the next scene. */
  lemma AdjacentNothingBetween(s: seq<Scene>, current: string, prev: Option<nat>, next: Option<nat>)
    requires SortedBy(s, FrameOf)
    requires AdjacentSpec(s, current, prev, next)
    ensures prev.Some? ==> forall i :: 0 <= i < |s| && LexLe(s[i].frame, current) ==>
      LexLe(s[i].frame, s[prev.value].frame)
    ensures prev.Some? && next.Some? ==> forall i :: 0 <= i < |s| ==>
      !(LexLt(s[prev.value].frame, s[i].frame) && LexLt(s[i].frame, s[next.value].frame))
  {
    if prev.Some? {
      var p := prev.value;
      forall i | 0 <= i < |s| && LexLe(s[i].frame, current)
        ensures LexLe(s[i].frame, s[p].frame)
      {
        if i < p {
          assert LexLe(FrameOf(s[i]), FrameOf(s[p]));
        } else {
          LexLeReflexive(s[i].frame);
        }
      }
      if next.Some? {
        var n := next.value;
        forall i | 0 <= i < |s| && LexLt(s[p].frame, s[i].frame)
          ensures !LexLt(s[i].frame, s[n].frame)
        {
          // a frame not after `current` would be at most s[p].frame
          if !LexLe(s[i].frame, current) {
            assert LexLe(s[n].frame, s[i].frame);
          }
        }
      }
    }
  }

  /** The list with "occluded" appended to the flags of entry p. */
  function Flag(s: seq<Scene>, p: nat): (r: seq<Scene>)
    requires p < |s|
    ensures |r| == |s|
  {
    s[p := Scene(s[p].tag, s[p].frame, s[p].flags + [Occluded])]
  }

  /** A second update of the same key overrides the first. */
  lemma UpdateTwice<K, V>(m: map<K, V>, k: K, a: V, b: V)
    ensures m[k := a][k := b] == m[k := b]
  {
  }

  /** The list `add_occluded_flag` leaves: sorted, with the previous scene of `current`
      flagged when there is one. */
  function WithOccludedFlag(s: seq<Scene>, current: string): seq<Scene>
  {
    var sorted := SortByKey(s, FrameOf);
    match LastAtMost(sorted, current)
    case None => sorted
    case Some(p) => Flag(sorted, p)
  }

  /** A list of scenes with no flags would count zero occluded entries. */
  function CountOccluded(s: seq<Scene>): (n: nat)
    ensures n <= |s|
    ensures n == 0 <==> forall i :: 0 <= i < |s| ==> Occluded !in s[i].flags
    decreases |s|
  {
    if |s| == 0 then 0
    else
      var init := s[..|s| - 1];
      assert forall i :: 0 <= i < |s| - 1 ==> init[i] == s[i];
      CountOccluded(init) + (if Occluded in s[|s| - 1].flags then 1 else 0)
  }

  lemma {:induction false} CountOccludedAppend(s: seq<Scene>, t: seq<Scene>)
    ensures CountOccluded(s + t) == CountOccluded(s) + CountOccluded(t)
    decreases |t|
  {
    if |t| > 0 {
      var t' := t[..|t| - 1];
      CountOccludedAppend(s, t');
      assert (s + t)[..|s + t| - 1] == s + t';
    } else {
      assert s + t == s;
    }
  }

  /** Flagging entry q as occluded adds one to the count if it had no such flag and
      leaves the count alone otherwise (the flag may appear twice). */
  lemma {:induction false} CountOccludedFlagged(s: seq<Scene>, q: nat)
    requires q < |s|
    ensures CountOccluded(Flag(s, q)) == CountOccluded(s) + (if Occluded in s[q].flags then 0 else 1)
    decreases |s|
  {
    var f := Flag(s, q);
    var last := |s| - 1;
    var bit := if Occluded in s[last].flags then 1 else 0;
    assert CountOccluded(s) == CountOccluded(s[..last]) + bit;
    if q == last {
      assert f[..last] == s[..last];
      assert Occluded in f[last].flags;
      assert CountOccluded(f) == CountOccluded(s[..last]) + 1;
    } else {
      assert f[..last] == Flag(s[..last], q);
      assert f[last] == s[last];
      CountOccludedFlagged(s[..last], q);
      assert CountOccluded(f) == CountOccluded(Flag(s[..last], q)) + bit;
    }
  }

  // ---------------------------------------------------------------------------
  // The store

  class SceneStore {
    var videoPath: Option<string>
    var lots: seq<LotsData.Lot>
    var scenes: map<string, seq<Scene>>
    var dirty: bool
    var loaded: bool
    var currentFrame: string
    var selectedLotIdx: Option<int>
    var selectedSceneIdx: Option<int>
    /** Emitted signals, oldest first. */
    var events: seq<Event>
    /** Documents written to the JSON path, oldest first. */
    var saved: seq<SceneDocument>

    /** No operation of the class ever marks the data dirty. */
    ghost predicate Valid()
      reads this
    {
      !dirty
    }

    constructor ()
      ensures Valid()
      ensures videoPath.None? && lots == [] && scenes == map[] && !loaded
      ensures currentFrame == "00000" && selectedLotIdx.None? && selectedSceneIdx.None?
      ensures events == [] && saved == []
    {
      videoPath := None;
      lots := [];
      scenes := map[];
      dirty := false;
      loaded := false;
      currentFrame := "00000";
      selectedLotIdx := None;
      selectedSceneIdx := None;
      events := [];
      saved := [];
    }

    /** `scenes_with_current_lot_id()`. */
    function CurrentLotScenes(): (r: LotScenes)
      reads this
      ensures r.NoLot? <==> selectedLotIdx.None?
      ensures r.Scenes? ==> (exists k :: 0 <= k < |lots| && PyIndex(selectedLotIdx.value, |lots|) == Some(k) &&
                                         lots[k].id == r.id && r.id in scenes && scenes[r.id] == r.list)
      ensures r.LookupFails? ==> match PyIndex(selectedLotIdx.value, |lots|)
        case None => true
        case Some(k) => lots[k].id !in scenes
    {
      if selectedLotIdx.None? then NoLot
      else match PyIndex(selectedLotIdx.value, |lots|)
        case None => LookupFails
        case Some(k) =>
          if lots[k].id in scenes then Scenes(lots[k].id, scenes[lots[k].id]) else LookupFails
    }

    /** The document `save` writes: version 0.1 with video path, lots and scenes only. */
    function Document(): (doc: SceneDocument)
      reads this
      ensures doc.version == "0.1" && doc.lots == lots && doc.scenes == scenes
      ensures doc.difficultFrames.None?
      ensures videoPath.Some? ==> doc.videoPath == videoPath.value
    {
      SceneDocument("0.1", PathString(videoPath), lots, scenes, None)
    }

    method Save()
      requires Valid()
      modifies this
      ensures Valid() && loaded
      ensures saved == old(saved) + [old(Document())]
      ensures unchanged(this`videoPath, this`lots, this`scenes, this`currentFrame)
      ensures unchanged(this`selectedLotIdx, this`selectedSceneIdx, this`events)
    {
      saved := saved + [Document()];
      loaded := true;
      dirty := false;
    }

    /** `may_save`: the data is never dirty, so the question is never asked. */
    method MaySave(answer: SaveAnswer)
      requires Valid()
      modifies this
      ensures Valid()
      ensures unchanged(this)
    {
      if !dirty {
        return;
      }
      // the "save it?" branch of the source is unreachable
      assert false;
    }

    method UpdateCurrentFrame(value: string)
      requires Valid()
      modifies this
      ensures Valid()
      ensures currentFrame == value && events == old(events) + [CurrentFrameChanged]
      ensures unchanged(this`videoPath, this`lots, this`scenes, this`loaded, this`saved)
      ensures unchanged(this`selectedLotIdx, this`selectedSceneIdx)
    {
      currentFrame := value;
      events := events + [CurrentFrameChanged];
    }

    method SetSelectedLotIdx(value: Option<int>)
      requires Valid()
      modifies this
      ensures Valid()
      ensures selectedLotIdx == value && events == old(events) + [SelectedLotIdxChanged]
      ensures unchanged(this`videoPath, this`lots, this`scenes, this`loaded, this`saved)
      ensures unchanged(this`currentFrame, this`selectedSceneIdx)
    {
      selectedLotIdx := value;
      events := events + [SelectedLotIdxChanged];
    }

    /** `load`: takes video path, lots and scenes from the document (difficult frames are
        not kept), selects lot 0 with no scene selected, and goes to frame "00000". */
    method Load(doc: SceneDocument, answer: SaveAnswer)
      requires Valid()
      modifies this
      ensures Valid() && loaded
      ensures videoPath == Some(doc.videoPath) && lots == doc.lots && scenes == doc.scenes
      ensures selectedSceneIdx.None? && selectedLotIdx == Some(0) && currentFrame == "00000"
      ensures events == old(events) + [SelectedLotIdxChanged, CurrentFrameChanged, DataLoaded]
      ensures saved == old(saved)
    {
      MaySave(answer);
      videoPath := Some(doc.videoPath);
      lots := doc.lots;
      scenes := doc.scenes;
      dirty := false;
      loaded := true;
      selectedSceneIdx := None;
      SetSelectedLotIdx(Some(0));
      UpdateCurrentFrame("00000");
      events := events + [DataLoaded];
    }

    /** `set_selected_scene_idx`: the index is stored first; for an index the current
        frame moves to that scene's frame. `ok` is false when looking the scene up raises
        (no lot selected, lookup failure, index out of range), after the index was stored. */
    method SetSelectedSceneIdx(value: Option<int>) returns (ok: bool)
      requires Valid()
      modifies this
      ensures Valid()
      ensures selectedSceneIdx == value
      ensures var r := old(CurrentLotScenes());
        ok <==> value.None? || (r.Scenes? && PyIndex(value.value, |r.list|).Some?)
      ensures var r := old(CurrentLotScenes());
        if value.None? then currentFrame == old(currentFrame) && events == old(events) + [SelectedSceneIdxChanged]
        else if ok then currentFrame == r.list[PyIndex(value.value, |r.list|).value].frame
          && events == old(events) + [CurrentFrameChanged, SelectedSceneIdxChanged]
        else currentFrame == old(currentFrame) && events == old(events)
      ensures unchanged(this`videoPath, this`lots, this`scenes, this`loaded, this`saved, this`selectedLotIdx)
    {
      selectedSceneIdx := value;
      if value.Some? {
        var r := CurrentLotScenes();
        if !r.Scenes? {
          return false;
        }
        var k := PyIndex(value.value, |r.list|);
        if k.None? {
          return false;
        }
        UpdateCurrentFrame(r.list[k.value].frame);
      }
      events := events + [SelectedSceneIdxChanged];
      return true;
    }

    /** `sort_scenes`: the current lot's list is sorted by frame in place; the other lots
        are untouched. `ok` is false when the lookup raises. */
    method SortScenes() returns (ok: bool)
      requires Valid()
      modifies this`scenes
      ensures Valid()
      ensures var r := old(CurrentLotScenes());
        (ok <==> !r.LookupFails?) &&
        (if r.Scenes? then scenes == old(scenes)[r.id := SortByKey(r.list, FrameOf)] else scenes == old(scenes))
    {
      var r := CurrentLotScenes();
      if r.LookupFails? {
        return false;
      }
      if r.Scenes? {
        scenes := scenes[r.id := SortByKey(r.list, FrameOf)];
      }
      return true;
    }

    /** `get_adjacent_scenes`: sorts the current lot's list, then finds the previous and
        next scene of the current frame in it (indices into the sorted list). */
    method GetAdjacentScenes() returns (ok: bool, prev: Option<nat>, next: Option<nat>)
      requires Valid()
      modifies this`scenes
      ensures Valid()
      ensures var r := old(CurrentLotScenes());
        (ok <==> !r.LookupFails?) &&
        (if r.Scenes? then scenes == old(scenes)[r.id := SortByKey(r.list, FrameOf)] else scenes == old(scenes))
      ensures var r := old(CurrentLotScenes());
        if r.Scenes? then AdjacentSpec(SortByKey(r.list, FrameOf), currentFrame, prev, next)
        else prev.None? && next.None?
    {
      ok := SortScenes();
      if !ok {
        return false, None, None;
      }
      var r := CurrentLotScenes();
      assert r.Scenes? ==> r.list == SortByKey(old(CurrentLotScenes()).list, FrameOf);
      if r.NoLot? || |r.list| == 0 {
        return true, None, None;
      }
      SortByKeySorted(old(CurrentLotScenes()).list, FrameOf);
      prev, next := AdjacentScenes(r.list, currentFrame);
    }

    /** `prev_scene()`: the previous scene of the current frame, after the sort. */
    method PrevScene() returns (ok: bool, scene: Option<Scene>)
      requires Valid()
      modifies this`scenes
      ensures Valid()
      ensures var r := old(CurrentLotScenes());
        (ok <==> !r.LookupFails?) &&
        (if r.Scenes? then scenes == old(scenes)[r.id := SortByKey(r.list, FrameOf)] else scenes == old(scenes))
      ensures var r := old(CurrentLotScenes());
        if r.Scenes? then
          var list := SortByKey(r.list, FrameOf);
          scene == (match LastAtMost(list, currentFrame)
            case None => None
            case Some(p) => Some(list[p]))
        else scene.None?
    {
      var prev, next;
      ok, prev, next := GetAdjacentScenes();
      scene := None;
      if prev.Some? {
        scene := Some(CurrentLotScenes().list[prev.value]);
      }
    }

    /** `next_scene()`: the next scene of the current frame, after the sort. */
    method NextScene() returns (ok: bool, scene: Option<Scene>)
      requires Valid()
      modifies this`scenes
      ensures Valid()
      ensures var r := old(CurrentLotScenes());
        (ok <==> !r.LookupFails?) &&
        (if r.Scenes? then scenes == old(scenes)[r.id := SortByKey(r.list, FrameOf)] else scenes == old(scenes))
      ensures var r := old(CurrentLotScenes());
        if r.Scenes? then
          var list := SortByKey(r.list, FrameOf);
          (scene.Some? <==> exists i :: 0 <= i < |list| && LexLt(currentFrame, list[i].frame)) &&
          (scene.Some? ==> exists n: nat :: AdjacentSpec(list, currentFrame, LastAtMost(list, currentFrame), Some(n))
                                       && n < |list| && scene.value == list[n])
        else scene.None?
    {
      var prev, next;
      ok, prev, next := GetAdjacentScenes();
      scene := None;
      if next.Some? {
        scene := Some(CurrentLotScenes().list[next.value]);
      }
    }

    /** `label_is_exist_in_frame(frame)`: whether some scene of the current lot is at that
        frame. Iterating raises unless a lot's list was found. */
    method LabelIsExistInFrame(frame: string) returns (ok: bool, exists_: bool)
      ensures ok <==> CurrentLotScenes().Scenes?
      ensures ok ==> (exists_ <==> exists i :: 0 <= i < |CurrentLotScenes().list| &&
                                              CurrentLotScenes().list[i].frame == frame)
    {
      var r := CurrentLotScenes();
      if !r.Scenes? {
        return false, false;
      }
      for i := 0 to |r.list|
        invariant forall j :: 0 <= j < i ==> r.list[j].frame != frame
      {
        if r.list[i].frame == frame {
          return true, true;
        }
      }
      return true, false;
    }

    /** `add_scene(label)`, with the label in `label_`: when no scene of the current lot is at the current frame,
        appends `{label, frame: current, flags: []}`, re-sorts that lot's list and emits
        data_changed; otherwise nothing changes. Other lots are untouched. */
    method AddScene(label_: string) returns (ok: bool)
      requires Valid()
      modifies this`scenes, this`events
      ensures Valid()
      ensures var r := old(CurrentLotScenes());
        (ok <==> r.Scenes?) &&
        (if ok && !(exists i :: 0 <= i < |r.list| && r.list[i].frame == currentFrame)
         then scenes == old(scenes)[r.id := SortByKey(r.list + [Scene(Some(label_), currentFrame, [])], FrameOf)]
           && events == old(events) + [DataChanged]
         else scenes == old(scenes) && events == old(events))
    {
      var found;
      ok, found := LabelIsExistInFrame(currentFrame);
      if !ok || found {
        return;
      }
      var r := CurrentLotScenes();
      InsertScene(r.id, r.list, Scene(Some(label_), currentFrame, []));
    }

    /** The second half of `add_scene`: the append to the current lot's list, the sort
        and the signal. */
    method InsertScene(id: string, list: seq<Scene>, sc: Scene)
      requires Valid() && CurrentLotScenes() == Scenes(id, list)
      modifies this`scenes, this`events
      ensures Valid()
      ensures scenes == old(scenes)[id := SortByKey(list + [sc], FrameOf)]
      ensures events == old(events) + [DataChanged]
    {
      scenes := scenes[id := list + [sc]];
      assert CurrentLotScenes() == Scenes(id, list + [sc]);
      var ok := SortScenes();
      events := events + [DataChanged];
    }

    /** `add_occluded_flag`: appends "occluded" to the flags of the previous scene of the
        current frame, in the sorted list; with no previous scene only the sort happens.
        The flag is appended even when the scene already has it. */
    method AddOccludedFlag() returns (ok: bool)
      requires Valid()
      modifies this`scenes, this`events
      ensures Valid()
      ensures var r := old(CurrentLotScenes());
        (ok <==> !r.LookupFails?) &&
        (if r.Scenes? then scenes == old(scenes)[r.id := WithOccludedFlag(r.list, currentFrame)]
         else scenes == old(scenes)) &&
        (if r.Scenes? && LastAtMost(SortByKey(r.list, FrameOf), currentFrame).Some?
         then events == old(events) + [DataChanged] else events == old(events))
    {
      ghost var r0, s0 := CurrentLotScenes(), scenes;
      var first;
      ok, first := PrevScene();
      if !ok || first.None? {
        if r0.Scenes? {
          assert WithOccludedFlag(r0.list, currentFrame) == SortByKey(r0.list, FrameOf);
        }
        return;
      }
      ghost var sorted := SortByKey(r0.list, FrameOf);
      assert scenes == s0[r0.id := sorted];
      var r := CurrentLotScenes();
      assert r == Scenes(r0.id, sorted);
      SortByKeySorted(r0.list, FrameOf);
      SortByKeyOfSorted(sorted, FrameOf);
      ghost var p := LastAtMost(sorted, currentFrame).value;
      FlagPreviousScene(r.id, r.list);
      assert scenes == s0[r0.id := sorted][r0.id := Flag(sorted, p)];
      assert WithOccludedFlag(r0.list, currentFrame) == Flag(sorted, p);
      UpdateTwice(s0, r0.id, sorted, Flag(sorted, p));
    }

    /** The second half of `add_occluded_flag`, on a sorted list whose current frame has a
        previous scene: `prev_scene()` again (its sort changes nothing), then the flag. */
    method FlagPreviousScene(id: string, list: seq<Scene>)
      requires Valid() && CurrentLotScenes() == Scenes(id, list) && SortByKey(list, FrameOf) == list
      requires LastAtMost(list, currentFrame).Some?
      modifies this`scenes, this`events
      ensures Valid()
      ensures scenes == old(scenes)[id := Flag(list, LastAtMost(list, currentFrame).value)]
      ensures events == old(events) + [DataChanged]
    {
      ghost var before := scenes;
      assert before[id := list] == before by {
        assert id in before && before[id] == list;
      }
      // `prev_scene()` once more; its sort changes nothing
      var ok, prev, next := GetAdjacentScenes();
      assert scenes == before;
      assert prev == LastAtMost(list, currentFrame);
      scenes := scenes[id := Flag(list, prev.value)];
      events := events + [DataChanged];
    }

    /** `remove_selected_scene`: pops the selected entry of the current lot's list (Python
        indexing); nothing happens with no lot, an empty list or no selection, and the
        selection is not cleared. `ok` is false when the lookup or the pop raises. */
    method RemoveSelectedScene() returns (ok: bool)
      requires Valid()
      modifies this`scenes, this`events
      ensures Valid()
      ensures var r := old(CurrentLotScenes());
        ok <==> !r.LookupFails? && (r.Scenes? && |r.list| > 0 && selectedSceneIdx.Some? ==>
                                    PyIndex(selectedSceneIdx.value, |r.list|).Some?)
      ensures var r := old(CurrentLotScenes());
        if ok && r.Scenes? && |r.list| > 0 && selectedSceneIdx.Some?
        then scenes == old(scenes)[r.id := RemoveAt(r.list, PyIndex(selectedSceneIdx.value, |r.list|).value)]
          && events == old(events) + [DataChanged]
        else scenes == old(scenes) && events == old(events)
    {
      var r := CurrentLotScenes();
      if r.LookupFails? {
        return false;
      }
      if r.NoLot? || |r.list| == 0 {
        return true;
      }
      if selectedSceneIdx.None? {
        return true;
      }
      var k := PyIndex(selectedSceneIdx.value, |r.list|);
      if k.None? {
        return false;
      }
      scenes := scenes[r.id := RemoveAt(r.list, k.value)];
      events := events + [DataChanged];
      return true;
    }

    /** `num_occluded_scenes`: how many scenes of the current lot carry the flag. */
    method NumOccludedScenes() returns (ok: bool, size: nat)
      ensures ok <==> !CurrentLotScenes().LookupFails?
      ensures ok ==> size == match CurrentLotScenes()
        case Scenes(_, list) => CountOccluded(list)
        case _ => 0
    {
      var r := CurrentLotScenes();
      if r.LookupFails? {
        return false, 0;
      }
      if r.NoLot? {
        return true, 0;
      }
      size := 0;
      for i := 0 to |r.list|
        invariant size == CountOccluded(r.list[..i])
      {
        assert r.list[..i + 1][..i] == r.list[..i];
        if Occluded in r.list[i].flags {
          size := size + 1;
        }
      }
      assert r.list[..|r.list|] == r.list;
      return true, size;
    }
  }
}
