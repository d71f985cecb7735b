/** ParkingLotAnnotTool/core/classifyconditions/conditionsdata.py: a flat list of
    `{frame, labels: {axis: value}}` entries describing the weather and time of day from
    each labelled frame on, with the lookups that turn it into a step function. */
module ConditionsData {
  import opened Common

  /** One entry `{frame, labels}`: the label of each axis ("weather", "time") set at
      that frame. */
  datatype Condition = Condition(frame: string, labels: map<string, string>)

  /** An entry as a conditions file holds it: the current form, or the version 0.1 form
      `{frame, label}` that carries the weather only. */
  datatype RawCondition = Labeled(entry: Condition) | Legacy(frame: string, weather: string)

  /** A conditions file. */
  datatype ConditionsDocument = ConditionsDocument(
    version: string,
    videoPath: string,
    conditions: seq<RawCondition>,
    initialTime: Option<string>,
    dayStartTime: Option<string>,
    nightStartTime: Option<string>,
    interval: Option<string>)

  /** The one Qt signal of ConditionsData. */
  datatype Event = CurrentFrameChanged

  const Weather := "weather"

  // ---------------------------------------------------------------------------
  // The legacy upgrade done by `load`

  /** A current entry is kept as it is; a legacy one becomes `{frame, labels: {weather: label}}`. */
  function Upgrade(d: RawCondition): Condition
  {
    match d
    case Labeled(c) => c
    case Legacy(frame, weather) => Condition(frame, map[Weather := weather])
  }

  /** The list `load` builds: one upgraded entry per stored entry, in order. */
  function UpgradeAll(raw: seq<RawCondition>): (r: seq<Condition>)
    ensures |r| == |raw|
    ensures forall i :: 0 <= i < |raw| ==> r[i] == Upgrade(raw[i])
  {
    seq(|raw|, i requires 0 <= i < |raw| => Upgrade(raw[i]))
  }

  /** How `save` writes the entries: all in the current form. */
  function Store(conds: seq<Condition>): (r: seq<RawCondition>)
    ensures |r| == |conds|
    ensures forall i :: 0 <= i < |conds| ==> r[i] == Labeled(conds[i])
  {
    seq(|conds|, i requires 0 <= i < |conds| => Labeled(conds[i]))
  }

  /** Loading what was saved gives back the same entries. */
  lemma LoadStoreRoundTrip(conds: seq<Condition>)
    ensures UpgradeAll(Store(conds)) == conds
  {
  }

  /** A legacy entry keeps its frame and its label becomes the weather label. */
  lemma UpgradeLegacy(frame: string, weather: string)
    ensures Upgrade(Legacy(frame, weather)).frame == frame
    ensures Weather in Upgrade(Legacy(frame, weather)).labels
    ensures Upgrade(Legacy(frame, weather)).labels[Weather] == weather
    ensures |Upgrade(Legacy(frame, weather)).labels| == 1
  {
  }

  // ---------------------------------------------------------------------------
  // Adjacent frames

  function Frames(conds: seq<Condition>): (r: seq<string>)
    ensures |r| == |conds|
    ensures forall i :: 0 <= i < |conds| ==> r[i] == conds[i].frame
  {
    seq(|conds|, i requires 0 <= i < |conds| => conds[i].frame)
  }

  function Str(s: string): string { s }

  /** `sorted(frames)`. */
  function SortedFrames(conds: seq<Condition>): seq<string>
  {
    SortByKey(Frames(conds), Str)
  }

  /** The first index j >= i of the loop of `get_frames_adjacent_label` at which
      s[j] <= f < s[j + 1]. */
  function FirstGap(s: seq<string>, f: string, i: nat): (r: Option<nat>)
    requires i <= |s|
    ensures r.Some? ==> i <= r.value && r.value + 1 < |s| && LexLe(s[r.value], f) && LexLt(f, s[r.value + 1])
    ensures r.None? ==> forall j :: i <= j && j + 1 < |s| ==> !(LexLe(s[j], f) && LexLt(f, s[j + 1]))
    decreases |s| - i
  {
    if i + 1 >= |s| then None
    else if LexLe(s[i], f) && LexLt(f, s[i + 1]) then Some(i)
    else FirstGap(s, f, i + 1)
  }

  /** What the loop and the two tails of `get_frames_adjacent_label` pick from the
      sorted non-empty frame list s. The source falls off the end of the function
      (returning None instead of a pair) in a case that cannot happen; that case gives
      (None, None) here, and SortedAdjacent shows it is unreachable. */
  function Pick(s: seq<string>, f: string): (Option<string>, Option<string>)
    requires |s| > 0
  {
    match FirstGap(s, f, 0)
    case Some(j) => (Some(s[j]), Some(s[j + 1]))
    case None =>
      if LexLt(f, s[0]) then (None, Some(s[0]))
      else if LexLe(s[|s| - 1], f) then (Some(s[|s| - 1]), None)
      else (None, None)
  }

  /** `get_frames_adjacent_label(f)`: the pair (previous frame, next frame) around f
      among the recorded frames. */
  function GetFramesAdjacentLabel(conds: seq<Condition>, f: string): (Option<string>, Option<string>)
  {
    if |conds| == 0 then (None, None) else Pick(SortedFrames(conds), f)
  }

  /** p is the greatest element of fs that is <= f, or None when every element is > f. */
  ghost predicate IsPrevOf(fs: seq<string>, f: string, p: Option<string>)
  {
    match p
    case Some(v) => v in fs && LexLe(v, f) && forall x :: x in fs && LexLe(x, f) ==> LexLe(x, v)
    case None => forall x :: x in fs ==> LexLt(f, x)
  }

  /** n is the least element of fs that is > f, or None when every element is <= f. */
  ghost predicate IsNextOf(fs: seq<string>, f: string, n: Option<string>)
  {
    match n
    case Some(v) => v in fs && LexLt(f, v) && forall x :: x in fs && LexLt(f, x) ==> LexLe(v, x)
    case None => forall x :: x in fs ==> LexLe(x, f)
  }

  lemma SortedLe(s: seq<string>, i: nat, k: nat)
    requires SortedBy(s, Str) && i <= k < |s|
    ensures LexLe(s[i], s[k])
  {
    if i < k {
      assert LexLe(Str(s[i]), Str(s[k]));
    } else {
      LexLeReflexive(s[i]);
    }
  }

  /** The last index whose element is at most f, when s[0] is. */
  lemma LastAtMostIndex(s: seq<string>, f: string) returns (j: nat)
    requires |s| > 0 && LexLe(s[0], f)
    ensures j < |s| && LexLe(s[j], f)
    ensures j + 1 < |s| ==> LexLt(f, s[j + 1])
  {
    j := 0;
    while j + 1 < |s| && LexLe(s[j + 1], f)
      invariant j < |s| && LexLe(s[j], f)
      decreases |s| - j
    {
      j := j + 1;
    }
  }

  /** On a sorted non-empty list the pick is the greatest element <= f and the least
      element > f, and never (None, None). */
  lemma SortedAdjacent(s: seq<string>, f: string)
    requires SortedBy(s, Str) && |s| > 0
    ensures Pick(s, f).0.Some? || Pick(s, f).1.Some?
    ensures IsPrevOf(s, f, Pick(s, f).0) && IsNextOf(s, f, Pick(s, f).1)
  {
    var n := |s|;
    var g := FirstGap(s, f, 0);
    if g.Some? {
      GapIsAdjacent(s, f, g.value);
    } else if LexLt(f, s[0]) {
      BeforeAllIsAdjacent(s, f);
    } else if LexLe(s[n - 1], f) {
      AfterAllIsAdjacent(s, f);
    } else {
      // s[0] <= f < s[n - 1], so some pair of neighbours brackets f
      var j := LastAtMostIndex(s, f);
      assert false;
    }
  }

  /** The loop's pick: neighbours s[j] <= f < s[j + 1] of a sorted list are the
      greatest element <= f and the least element > f. */
  lemma GapIsAdjacent(s: seq<string>, f: string, j: nat)
    requires SortedBy(s, Str) && j + 1 < |s| && LexLe(s[j], f) && LexLt(f, s[j + 1])
    ensures IsPrevOf(s, f, Some(s[j])) && IsNextOf(s, f, Some(s[j + 1]))
  {
    var n := |s|;
    forall x | x in s && LexLe(x, f) ensures LexLe(x, s[j]) {
      var k :| 0 <= k < n && s[k] == x;
      if k <= j {
        SortedLe(s, k, j);
      } else {
        SortedLe(s, j + 1, k);
        LexLtLeTransitive(f, s[j + 1], s[k]);
      }
    }
    forall x | x in s && LexLt(f, x) ensures LexLe(s[j + 1], x) {
      var k :| 0 <= k < n && s[k] == x;
      if k > j {
        SortedLe(s, j + 1, k);
      } else {
        SortedLe(s, k, j);
        LexLeTransitive(s[k], s[j], f);
      }
    }
  }

  /** The first tail: f before the first element of a sorted list. */
  lemma BeforeAllIsAdjacent(s: seq<string>, f: string)
    requires SortedBy(s, Str) && |s| > 0 && LexLt(f, s[0])
    ensures IsPrevOf(s, f, None) && IsNextOf(s, f, Some(s[0]))
  {
    forall x | x in s ensures LexLt(f, x) && LexLe(s[0], x) {
      var k :| 0 <= k < |s| && s[k] == x;
      SortedLe(s, 0, k);
      LexLtLeTransitive(f, s[0], s[k]);
    }
  }

  /** The second tail: f at or after the last element of a sorted list. */
  lemma AfterAllIsAdjacent(s: seq<string>, f: string)
    requires SortedBy(s, Str) && |s| > 0 && LexLe(s[|s| - 1], f)
    ensures IsPrevOf(s, f, Some(s[|s| - 1])) && IsNextOf(s, f, None)
  {
    var n := |s|;
    forall x | x in s ensures LexLe(x, f) && LexLe(x, s[n - 1]) {
      var k :| 0 <= k < n && s[k] == x;
      SortedLe(s, k, n - 1);
      LexLeTransitive(s[k], s[n - 1], f);
    }
  }

  /** `get_frames_adjacent_label(f)` returns the greatest recorded frame <= f and the
      least recorded frame > f, None on a missing side, and (None, None) exactly when no
      condition is recorded. */
  lemma FramesAdjacentSpec(conds: seq<Condition>, f: string)
    ensures var r := GetFramesAdjacentLabel(conds, f);
      (r.0.None? && r.1.None? <==> |conds| == 0) &&
      IsPrevOf(Frames(conds), f, r.0) && IsNextOf(Frames(conds), f, r.1)
  {
    if |conds| > 0 {
      var fr, s := Frames(conds), SortedFrames(conds);
      SortByKeySorted(fr, Str);
      SortByKeyPermutes(fr, Str);
      SortedAdjacent(s, f);
      assert forall x :: x in s <==> x in fr by {
        forall x ensures x in s <==> x in fr {
          assert x in s <==> x in multiset(s);
          assert x in fr <==> x in multiset(fr);
        }
      }
    }
  }

  /** A frame of some entry is found by the first-entry search. */
  lemma InFramesIsFound(conds: seq<Condition>, v: string)
    requires v in Frames(conds)
    ensures FirstWithFrame(conds, v, 0).Some?
  {
    var i :| 0 <= i < |conds| && Frames(conds)[i] == v;
    assert conds[i].frame == v;
  }
  /** `prev_label_frame()` and `next_label_frame()` for the current frame. */
  function PrevLabelFrame(conds: seq<Condition>, current: string): Option<string>
  {
    GetFramesAdjacentLabel(conds, current).0
  }

  function NextLabelFrame(conds: seq<Condition>, current: string): Option<string>
  {
    GetFramesAdjacentLabel(conds, current).1
  }

  // ---------------------------------------------------------------------------
  // Labels as a step function of the frame

  /** The first entry at frame f, from index i on. */
  function FirstWithFrame(conds: seq<Condition>, f: string, i: nat): (r: Option<nat>)
    requires i <= |conds|
    ensures r.Some? ==> i <= r.value < |conds| && conds[r.value].frame == f
    ensures r.Some? ==> forall j :: i <= j < r.value ==> conds[j].frame != f
    ensures r.None? <==> forall j :: i <= j < |conds| ==> conds[j].frame != f
    decreases |conds| - i
  {
    if i == |conds| then None
    else if conds[i].frame == f then Some(i)
    else FirstWithFrame(conds, f, i + 1)
  }

  /** `labels.get(axis)`. */
  function LabelGet(labels: map<string, string>, axis: string): Option<string>
  {
    if axis in labels then Some(labels[axis]) else None
  }

  /** 1 when looking up `frame` will fall back to `prev_label`, else 0. */
  function Fallbacks(conds: seq<Condition>, frame: Option<string>): nat
  {
    if frame.Some? && |conds| > 0 && FirstWithFrame(conds, frame.value, 0).None? then 1 else 0
  }

  /** `get_label_find_by_frame(frame, axis)`: None for no frame or no conditions; the
      axis label of the first entry at that frame; otherwise `prev_label(axis)`, which
      looks up the previous frame of the CURRENT frame, not of `frame`. That second
      lookup always finds an entry, so the recursion stops there. */
  function GetLabelFindByFrame(conds: seq<Condition>, current: string, frame: Option<string>, axis: string)
    : Option<string>
    decreases Fallbacks(conds, frame)
  {
    if frame.None? || |conds| == 0 then None
    else match FirstWithFrame(conds, frame.value, 0)
      case Some(k) => LabelGet(conds[k].labels, axis)
      case None =>
        var p := PrevLabelFrame(conds, current);
        PrevFrameIsFound(conds, current);
        GetLabelFindByFrame(conds, current, p, axis)
  }

  /** `current_label`, `prev_label` and `next_label`. */
  function CurrentLabel(conds: seq<Condition>, current: string, axis: string): Option<string>
  {
    GetLabelFindByFrame(conds, current, Some(current), axis)
  }

  function PrevLabel(conds: seq<Condition>, current: string, axis: string): Option<string>
  {
    GetLabelFindByFrame(conds, current, PrevLabelFrame(conds, current), axis)
  }

  function NextLabel(conds: seq<Condition>, current: string, axis: string): Option<string>
  {
    GetLabelFindByFrame(conds, current, NextLabelFrame(conds, current), axis)
  }

  /** The label of the first entry at a recorded frame, None for a missing frame. */
  function LabelOfFrame(conds: seq<Condition>, frame: Option<string>, axis: string): Option<string>
  {
    if frame.None? then None
    else match FirstWithFrame(conds, frame.value, 0)
      case None => None
      case Some(k) => LabelGet(conds[k].labels, axis)
  }

  /** The current label is the axis label of the entry at the greatest recorded frame
      <= current, or None; an entry there without that axis gives None, with no search
      further back. */
  lemma {:induction false} CurrentLabelSpec(conds: seq<Condition>, current: string, axis: string)
    ensures CurrentLabel(conds, current, axis) == LabelOfFrame(conds, PrevLabelFrame(conds, current), axis)
  {
    FramesAdjacentSpec(conds, current);
    PrevFrameIsFound(conds, current);
    var p := PrevLabelFrame(conds, current);
    if |conds| > 0 {
      match FirstWithFrame(conds, current, 0)
      case Some(k) =>
        // current is itself recorded, so it is the greatest recorded frame <= current
        LexLeReflexive(current);
        assert Frames(conds)[k] == current;
        LexLeAntisymmetric(p.value, current);
      case None =>
        assert CurrentLabel(conds, current, axis) == GetLabelFindByFrame(conds, current, p, axis);
    }
  }

  /** The frames `prev_label_frame` and `next_label_frame` return are recorded ones. */
  lemma PrevFrameIsFound(conds: seq<Condition>, current: string)
    ensures PrevLabelFrame(conds, current).Some? ==> FirstWithFrame(conds, PrevLabelFrame(conds, current).value, 0).Some?
    ensures NextLabelFrame(conds, current).Some? ==> FirstWithFrame(conds, NextLabelFrame(conds, current).value, 0).Some?
  {
    FramesAdjacentSpec(conds, current);
    if PrevLabelFrame(conds, current).Some? {
      InFramesIsFound(conds, PrevLabelFrame(conds, current).value);
    }
    if NextLabelFrame(conds, current).Some? {
      InFramesIsFound(conds, NextLabelFrame(conds, current).value);
    }
  }

  /** `prev_label` is the label at the greatest recorded frame <= current. */
  lemma PrevLabelSpec(conds: seq<Condition>, current: string, axis: string)
    ensures PrevLabel(conds, current, axis) == LabelOfFrame(conds, PrevLabelFrame(conds, current), axis)
  {
    PrevFrameIsFound(conds, current);
  }

  /** `next_label` is the label at the least recorded frame > current. */
  lemma NextLabelSpec(conds: seq<Condition>, current: string, axis: string)
    ensures NextLabel(conds, current, axis) == LabelOfFrame(conds, NextLabelFrame(conds, current), axis)
  {
    PrevFrameIsFound(conds, current);
  }

  /** With no entry at `frame`, the lookup does not depend on `frame` at all: it is the
      previous label of the current frame. */
  lemma FindByFrameFallback(conds: seq<Condition>, current: string, f: string, g: string, axis: string)
    requires |conds| > 0
    requires forall i :: 0 <= i < |conds| ==> conds[i].frame != f && conds[i].frame != g
    ensures GetLabelFindByFrame(conds, current, Some(f), axis) == PrevLabel(conds, current, axis)
    ensures GetLabelFindByFrame(conds, current, Some(f), axis) == GetLabelFindByFrame(conds, current, Some(g), axis)
  {
    assert FirstWithFrame(conds, f, 0).None? && FirstWithFrame(conds, g, 0).None?;
  }

  /** No two entries share a frame. */
  ghost predicate UniqueFrames(conds: seq<Condition>)
  {
    forall i, j :: 0 <= i < j < |conds| ==> conds[i].frame != conds[j].frame
  }

  // ---------------------------------------------------------------------------
  // The store

  class ConditionsStore {
    var videoPath: Option<string>
    var conditions: seq<Condition>
    var initialTime: Option<string>
    var dayStartTime: Option<string>
    var nightStartTime: Option<string>
    var interval: Option<string>
    var dirty: bool
    var loaded: bool
    var currentFrame: string
    /** Emitted signals, oldest first. */
    var events: seq<Event>
    /** Documents written to the JSON path, oldest first. */
    var saved: seq<ConditionsDocument>

    constructor ()
      ensures videoPath.None? && conditions == [] && !dirty && !loaded
      ensures initialTime.None? && dayStartTime.None? && nightStartTime.None? && interval.None?
      ensures currentFrame == "00000" && events == [] && saved == []
    {
      videoPath := None;
      conditions := [];
      initialTime := None;
      dayStartTime := None;
      nightStartTime := None;
      interval := None;
      dirty := false;
      loaded := false;
      currentFrame := "00000";
      events := [];
      saved := [];
    }

    /** The document `save` writes: version 0.3 with the entries and the time fields. */
    function Document(): (doc: ConditionsDocument)
      reads this
      ensures doc.version == "0.3" && UpgradeAll(doc.conditions) == conditions
      ensures doc.initialTime == initialTime && doc.dayStartTime == dayStartTime
      ensures doc.nightStartTime == nightStartTime && doc.interval == interval
      ensures videoPath.Some? ==> doc.videoPath == videoPath.value
    {
      LoadStoreRoundTrip(conditions);
      ConditionsDocument("0.3", PathString(videoPath), Store(conditions), initialTime, dayStartTime,
                         nightStartTime, interval)
    }

    method Save()
      modifies this
      ensures saved == old(saved) + [old(Document())] && loaded && !dirty
      ensures unchanged(this`videoPath, this`conditions, this`initialTime, this`dayStartTime)
      ensures unchanged(this`nightStartTime, this`interval, this`currentFrame, this`events)
    {
      saved := saved + [Document()];
      loaded := true;
      dirty := false;
    }

    /** `may_save`: saves only if there are unsaved changes and the user answers yes. */
    method MaySave(answer: SaveAnswer)
      modifies this
      ensures if old(dirty) && answer == AnswerYes
        then saved == old(saved) + [old(Document())] && loaded && !dirty
        else saved == old(saved) && loaded == old(loaded) && dirty == old(dirty)
      ensures unchanged(this`videoPath, this`conditions, this`initialTime, this`dayStartTime)
      ensures unchanged(this`nightStartTime, this`interval, this`currentFrame, this`events)
    {
      if !dirty {
        return;
      }
      if answer == AnswerYes {
        Save();
      }
    }

    /** `load`: after the save question, takes everything from the document, upgrading
        legacy entries one by one in order, and goes to frame "00000", clean and loaded. */
    method Load(doc: ConditionsDocument, answer: SaveAnswer)
      modifies this
      ensures videoPath == Some(doc.videoPath) && conditions == UpgradeAll(doc.conditions)
      ensures initialTime == doc.initialTime && dayStartTime == doc.dayStartTime
      ensures nightStartTime == doc.nightStartTime && interval == doc.interval
      ensures !dirty && loaded && currentFrame == "00000"
      ensures events == old(events) + [CurrentFrameChanged]
      ensures saved == if old(dirty) && answer == AnswerYes then old(saved) + [old(Document())] else old(saved)
    {
      MaySave(answer);
      videoPath := Some(doc.videoPath);
      conditions := UpgradeEntries(doc.conditions);
      initialTime := doc.initialTime;
      dayStartTime := doc.dayStartTime;
      nightStartTime := doc.nightStartTime;
      interval := doc.interval;
      dirty := false;
      loaded := true;
      currentFrame := "00000";
      events := events + [CurrentFrameChanged];
    }

    /** The loop of `load` that upgrades the stored entries one by one. */
    static method UpgradeEntries(raw: seq<RawCondition>) returns (upgraded: seq<Condition>)
      ensures upgraded == UpgradeAll(raw)
    {
      upgraded := [];
      for i := 0 to |raw|
        invariant |upgraded| == i
        invariant forall j :: 0 <= j < i ==> upgraded[j] == Upgrade(raw[j])
      {
        match raw[i]
        case Labeled(c) =>
          upgraded := upgraded + [c];
        case Legacy(frame, weather) =>
          upgraded := upgraded + [Condition(frame, map[Weather := weather])];
      }
    }

    method UpdateCurrentFrame(value: string)
      modifies this
      ensures currentFrame == value && events == old(events) + [CurrentFrameChanged]
      ensures unchanged(this`videoPath, this`conditions, this`initialTime, this`dayStartTime)
      ensures unchanged(this`nightStartTime, this`interval, this`dirty, this`loaded, this`saved)
    {
      currentFrame := value;
      events := events + [CurrentFrameChanged];
    }

    /** `add_label(axis, value)`: at the first entry of the current frame, False when the
        axis is already labelled there (nothing changes), else the axis is added to that
        entry; with no entry at the current frame a new one is appended. Both ways the
        data becomes dirty and the result is True. */
    method AddLabel(axis: string, value: string) returns (changed: bool)
      modifies this
      ensures var k := FirstWithFrame(old(conditions), currentFrame, 0);
        if k.Some? && axis in old(conditions)[k.value].labels then
          !changed && conditions == old(conditions) && dirty == old(dirty)
        else if k.Some? then
          changed && dirty &&
          conditions == old(conditions)[k.value := Condition(currentFrame, old(conditions)[k.value].labels[axis := value])]
        else
          changed && dirty && conditions == old(conditions) + [Condition(currentFrame, map[axis := value])]
      ensures unchanged(this`videoPath, this`initialTime, this`dayStartTime, this`nightStartTime)
      ensures unchanged(this`interval, this`loaded, this`currentFrame, this`events, this`saved)
    {
      var i := 0;
      while i < |conditions|
        invariant 0 <= i <= |conditions|
        invariant FirstWithFrame(conditions, currentFrame, 0) == FirstWithFrame(conditions, currentFrame, i)
      {
        var d := conditions[i];
        if d.frame == currentFrame {
          if axis in d.labels {
            return false;
          }
          conditions := conditions[i := Condition(d.frame, d.labels[axis := value])];
          dirty := true;
          return true;
        }
        i := i + 1;
      }
      conditions := conditions + [Condition(currentFrame, map[axis := value])];
      dirty := true;
      return true;
    }

    method SetInitialTime(value: Option<string>)
      modifies this
      ensures initialTime == value
      ensures unchanged(this`videoPath, this`conditions, this`dayStartTime, this`nightStartTime, this`interval)
      ensures unchanged(this`dirty, this`loaded, this`currentFrame, this`events, this`saved)
    {
      initialTime := value;
    }

    method SetDayStartTime(value: Option<string>)
      modifies this
      ensures dayStartTime == value
      ensures unchanged(this`videoPath, this`conditions, this`initialTime, this`nightStartTime, this`interval)
      ensures unchanged(this`dirty, this`loaded, this`currentFrame, this`events, this`saved)
    {
      dayStartTime := value;
    }

    method SetNightStartTime(value: Option<string>)
      modifies this
      ensures nightStartTime == value
      ensures unchanged(this`videoPath, this`conditions, this`initialTime, this`dayStartTime, this`interval)
      ensures unchanged(this`dirty, this`loaded, this`currentFrame, this`events, this`saved)
    {
      nightStartTime := value;
    }
  }

  /** The label added by `add_label` is the one now found at the current frame. */
  lemma AddLabelIsFound(conds: seq<Condition>, current: string, axis: string, value: string, after: seq<Condition>)
    requires var k := FirstWithFrame(conds, current, 0);
      if k.Some? then axis !in conds[k.value].labels &&
        after == conds[k.value := Condition(current, conds[k.value].labels[axis := value])]
      else after == conds + [Condition(current, map[axis := value])]
    ensures CurrentLabel(after, current, axis) == Some(value)
  {
    var k := FirstWithFrame(conds, current, 0);
    if k.Some? {
      assert FirstWithFrame(after, current, 0) == FirstWithFrame(conds, current, 0) by {
        FirstWithFrameSameFrames(conds, after, current, 0);
      }
    } else {
      FirstWithFrameAppend(conds, Condition(current, map[axis := value]), 0);
    }
  }

  lemma {:induction false} FirstWithFrameSameFrames(a: seq<Condition>, b: seq<Condition>, f: string, i: nat)
    requires |a| == |b| && i <= |a|
    requires forall j :: 0 <= j < |a| ==> a[j].frame == b[j].frame
    ensures FirstWithFrame(a, f, i) == FirstWithFrame(b, f, i)
    decreases |a| - i
  {
    if i < |a| {
      FirstWithFrameSameFrames(a, b, f, i + 1);
    }
  }

  lemma {:induction false} FirstWithFrameAppend(a: seq<Condition>, c: Condition, i: nat)
    requires i <= |a| && forall j :: i <= j < |a| ==> a[j].frame != c.frame
    ensures FirstWithFrame(a + [c], c.frame, i) == Some(|a|)
    decreases |a| - i
  {
    if i < |a| {
      FirstWithFrameAppend(a, c, i + 1);
    }
  }

  /** `add_label` keeps the frames unique: it only appends an entry when none has the
      current frame. */
  lemma AddLabelKeepsUniqueFrames(conds: seq<Condition>, current: string, axis: string, value: string, after: seq<Condition>)
    requires UniqueFrames(conds)
    requires var k := FirstWithFrame(conds, current, 0);
      if k.Some? then after == conds[k.value := Condition(current, conds[k.value].labels[axis := value])]
      else after == conds + [Condition(current, map[axis := value])]
    ensures UniqueFrames(after)
  {
  }
}
