/** ParkingLotAnnotTool/core/classifyscene/classifyscene.py: the Free/Busy actions and
    the enable state of the five label and flag actions, refreshed from the scene
    before the current frame. */
module ClassifyScene {
  import opened Common
  import opened SceneData

  /** Enable state of the Busy, Free, Occluded, Person and Ambiguous actions. */
  datatype Buttons = Buttons(busy: bool, free: bool, occluded: bool, person: bool, ambiguous: bool)

  /** The label half of `refresh`: null enables both, "free" only Busy, "busy" only
      Free; any other label leaves both as they were. */
  function AfterLabel(b: Buttons, label_: Option<string>): Buttons
  {
    if label_.None? then b.(busy := true, free := true)
    else if label_.value == "free" then b.(busy := true, free := false)
    else if label_.value == "busy" then b.(busy := false, free := true)
    else b
  }

  /** The flag half of `refresh`: no flags enable all three flag actions; otherwise
      each listed flag disables its action. */
  function AfterFlags(b: Buttons, flags: seq<string>): Buttons
  {
    if |flags| == 0 then b.(occluded := true, person := true, ambiguous := true)
    else b.(occluded := b.occluded && "occluded" !in flags,
            person := b.person && "person" !in flags,
            ambiguous := b.ambiguous && "ambiguous" !in flags)
  }

  /** `refresh` for a previous scene (or none). */
  function Refreshed(b: Buttons, prev: Option<Scene>): Buttons
  {
    match prev
    case None => b
    case Some(sc) => AfterFlags(AfterLabel(b, sc.tag), sc.flags)
  }

  /** With no previous scene nothing changes; the label decides Busy and Free as in the
      table, and the flags never touch them. */
  lemma RefreshedLabels(b: Buttons, prev: Option<Scene>)
    ensures prev.None? ==> Refreshed(b, prev) == b
    ensures prev.Some? ==> var r, t := Refreshed(b, prev), prev.value.tag;
      (t.None? ==> r.busy && r.free) &&
      (t == Some("free") ==> r.busy && !r.free) &&
      (t == Some("busy") ==> !r.busy && r.free) &&
      (t.Some? && t.value != "free" && t.value != "busy" ==> r.busy == b.busy && r.free == b.free)
  {
  }

  /** Empty flags enable all three flag actions; non-empty flags disable exactly the
      listed ones, keep the others, and never enable any. */
  lemma RefreshedFlags(b: Buttons, sc: Scene)
    ensures var r := Refreshed(b, Some(sc));
      (|sc.flags| == 0 ==> r.occluded && r.person && r.ambiguous) &&
      (|sc.flags| > 0 ==>
        (r.occluded <==> b.occluded && "occluded" !in sc.flags) &&
        (r.person <==> b.person && "person" !in sc.flags) &&
        (r.ambiguous <==> b.ambiguous && "ambiguous" !in sc.flags) &&
        (r.occluded ==> b.occluded) && (r.person ==> b.person) && (r.ambiguous ==> b.ambiguous))
  {
  }

  class ClassifySceneWidget {
    const store: SceneStore
    var busyEnabled: bool
    var freeEnabled: bool
    var occludedEnabled: bool
    var personEnabled: bool
    var ambiguousEnabled: bool

    function Enabled(): Buttons
      reads this
    {
      Buttons(busyEnabled, freeEnabled, occludedEnabled, personEnabled, ambiguousEnabled)
    }

    constructor (store: SceneStore)
      ensures this.store == store
      ensures Enabled() == Buttons(true, true, true, true, true)
    {
      this.store := store;
      busyEnabled, freeEnabled := true, true;
      occludedEnabled, personEnabled, ambiguousEnabled := true, true, true;
    }

    /** `click_free_impl`: `add_scene("free")`, whose data_changed runs `refresh` at
        once (the connection of classifyscene.py:24). A new scene makes Free the
        disabled label action and enables the three flag actions. */
    method ClickFree() returns (ok: bool)
      requires store.Valid()
      modifies this`busyEnabled, this`freeEnabled, this`occludedEnabled, this`personEnabled,
               this`ambiguousEnabled, store`scenes, store`events
      ensures store.Valid()
      ensures var r := old(store.CurrentLotScenes());
        (ok <==> r.Scenes?) &&
        (if ok && !(exists i :: 0 <= i < |r.list| && r.list[i].frame == store.currentFrame)
         then store.scenes == old(store.scenes)[r.id := SortByKey(r.list + [Scene(Some("free"), store.currentFrame, [])], FrameOf)]
           && store.events == old(store.events) + [DataChanged]
           && Enabled() == Buttons(true, false, true, true, true)
         else store.scenes == old(store.scenes) && store.events == old(store.events) && Enabled() == old(Enabled()))
    {
      ok := AddSceneAndRefresh("free");
    }

    /** `click_busy_impl`: `add_scene("busy")` and the `refresh` its data_changed runs;
        a new scene makes Busy the disabled label action. */
    method ClickBusy() returns (ok: bool)
      requires store.Valid()
      modifies this`busyEnabled, this`freeEnabled, this`occludedEnabled, this`personEnabled,
               this`ambiguousEnabled, store`scenes, store`events
      ensures store.Valid()
      ensures var r := old(store.CurrentLotScenes());
        (ok <==> r.Scenes?) &&
        (if ok && !(exists i :: 0 <= i < |r.list| && r.list[i].frame == store.currentFrame)
         then store.scenes == old(store.scenes)[r.id := SortByKey(r.list + [Scene(Some("busy"), store.currentFrame, [])], FrameOf)]
           && store.events == old(store.events) + [DataChanged]
           && Enabled() == Buttons(false, true, true, true, true)
         else store.scenes == old(store.scenes) && store.events == old(store.events) && Enabled() == old(Enabled()))
    {
      ok := AddSceneAndRefresh("busy");
    }

    /** `add_scene(label)` followed, when it emitted data_changed, by `refresh`. */
    method AddSceneAndRefresh(label_: string) returns (ok: bool)
      requires store.Valid()
      requires label_ == "free" || label_ == "busy"
      modifies this`busyEnabled, this`freeEnabled, this`occludedEnabled, this`personEnabled,
               this`ambiguousEnabled, store`scenes, store`events
      ensures store.Valid()
      ensures var r := old(store.CurrentLotScenes());
        (ok <==> r.Scenes?) &&
        (if ok && !(exists i :: 0 <= i < |r.list| && r.list[i].frame == store.currentFrame)
         then store.scenes == old(store.scenes)[r.id := SortByKey(r.list + [Scene(Some(label_), store.currentFrame, [])], FrameOf)]
           && store.events == old(store.events) + [DataChanged]
           && Enabled() == Buttons(label_ != "busy", label_ != "free", true, true, true)
         else store.scenes == old(store.scenes) && store.events == old(store.events) && Enabled() == old(Enabled()))
    {
      ghost var r, b, cur := store.CurrentLotScenes(), Enabled(), store.currentFrame;
      ghost var isNew := r.Scenes? && !(exists i :: 0 <= i < |r.list| && r.list[i].frame == cur);
      var events := store.events;
      ok := store.AddScene(label_);
      if store.events == events {
        assert !isNew;
        return;
      }
      assert isNew;
      ghost var sc := Scene(Some(label_), cur, []);
      ghost var added := SortByKey(r.list + [sc], FrameOf);
      assert store.scenes == old(store.scenes)[r.id := added];
      assert store.CurrentLotScenes() == Scenes(r.id, added);
      SortByKeySorted(r.list + [sc], FrameOf);
      SortByKeyOfSorted(added, FrameOf);
      var refreshed := Refresh();
      assert Enabled() == Refreshed(b, PrevOf(Scenes(r.id, added), cur));
      AddedSceneShows(b, r.id, r.list, label_, cur);
    }

    /** `refresh`: the picture is looked up first, which raises unless a lot is selected
        at a valid index (`current_lot_img`); `prev_scene` then re-sorts the lot's
        scenes, raising when its id has none, and the enable states follow the previous
        scene (the picture itself is left out). */
    method Refresh() returns (ok: bool)
      requires store.Valid()
      modifies this`busyEnabled, this`freeEnabled, this`occludedEnabled, this`personEnabled,
               this`ambiguousEnabled, store`scenes
      ensures store.Valid()
      ensures var r := old(store.CurrentLotScenes());
        (ok <==> r.Scenes?) &&
        (if ok then store.scenes == old(store.scenes)[r.id := SortByKey(r.list, FrameOf)]
         else store.scenes == old(store.scenes)) &&
        Enabled() == if ok then Refreshed(old(Enabled()), PrevOf(r, store.currentFrame)) else old(Enabled())
    {
      if !store.CurrentLotScenes().Scenes? {
        return false;
      }
      var prev;
      ok, prev := store.PrevScene();
      if prev.None? {
        return;
      }
      ApplyLabel(prev.value.tag);
      ApplyFlags(prev.value.flags);
    }

    /** The `prev_label` branches of `refresh`. */
    method ApplyLabel(prevLabel: Option<string>)
      modifies this`busyEnabled, this`freeEnabled
      ensures Enabled() == AfterLabel(old(Enabled()), prevLabel)
    {
      if prevLabel.None? {
        busyEnabled := true;
        freeEnabled := true;
      } else if prevLabel.value == "free" {
        busyEnabled := true;
        freeEnabled := false;
      } else if prevLabel.value == "busy" {
        busyEnabled := false;
        freeEnabled := true;
      }
    }

    /** The `prev_flags` part of `refresh`, with its loop over the flags. */
    method ApplyFlags(prevFlags: seq<string>)
      modifies this`occludedEnabled, this`personEnabled, this`ambiguousEnabled
      ensures Enabled() == AfterFlags(old(Enabled()), prevFlags)
    {
      if |prevFlags| == 0 {
        occludedEnabled := true;
        personEnabled := true;
        ambiguousEnabled := true;
        return;
      }
      for i := 0 to |prevFlags|
        invariant occludedEnabled == (old(occludedEnabled) && "occluded" !in prevFlags[..i])
        invariant personEnabled == (old(personEnabled) && "person" !in prevFlags[..i])
        invariant ambiguousEnabled == (old(ambiguousEnabled) && "ambiguous" !in prevFlags[..i])
      {
        assert prevFlags[..i + 1] == prevFlags[..i] + [prevFlags[i]];
        if prevFlags[i] == "occluded" {
          occludedEnabled := false;
        }
        if prevFlags[i] == "person" {
          personEnabled := false;
        }
        if prevFlags[i] == "ambiguous" {
          ambiguousEnabled := false;
        }
      }
      assert prevFlags[..|prevFlags|] == prevFlags;
    }
  }

  /** The scene `prev_scene()` gives for a lookup result and the current frame. */
  function PrevOf(r: LotScenes, current: string): Option<Scene>
  {
    if r.Scenes? then
      var list := SortByKey(r.list, FrameOf);
      match LastAtMost(list, current)
      case None => None
      case Some(p) => Some(list[p])
    else None
  }

  /** A scene added at a frame where the lot had none is the one the next `refresh`
      finds as the previous scene of that frame. */
  lemma AddedSceneIsPrev(id: string, list: seq<Scene>, sc: Scene)
    requires forall i :: 0 <= i < |list| ==> list[i].frame != sc.frame
    ensures PrevOf(Scenes(id, SortByKey(list + [sc], FrameOf)), sc.frame) == Some(sc)
  {
    var added := list + [sc];
    var s := SortByKey(added, FrameOf);
    SortByKeySorted(added, FrameOf);
    SortByKeyPermutes(added, FrameOf);
    OnlyAddedAtFrame(list, sc, s);
    PrevOfOnlyAtFrame(id, s, sc);
  }

  /** In a lot's list sorted by frame, the only scene at a frame is the one `prev_scene`
      gives at that frame. */
  lemma PrevOfOnlyAtFrame(id: string, s: seq<Scene>, sc: Scene)
    requires SortedBy(s, FrameOf) && sc in s
    requires forall i :: 0 <= i < |s| && s[i].frame == sc.frame ==> s[i] == sc
    ensures PrevOf(Scenes(id, s), sc.frame) == Some(sc)
  {
    SortByKeyOfSorted(s, FrameOf);
    assert forall i, j :: 0 <= i < j < |s| ==> LexLe(FrameOf(s[i]), FrameOf(s[j]));
    SortedOnlyAtFrame(s, sc);
  }

  /** A permutation of `list + [sc]`, where no scene of `list` is at sc's frame, holds
      `sc` and no other scene at that frame. */
  lemma OnlyAddedAtFrame(list: seq<Scene>, sc: Scene, s: seq<Scene>)
    requires forall i :: 0 <= i < |list| ==> list[i].frame != sc.frame
    requires multiset(s) == multiset(list + [sc])
    ensures sc in s
    ensures forall i :: 0 <= i < |s| && s[i].frame == sc.frame ==> s[i] == sc
  {
    assert sc in multiset(s);
    forall i | 0 <= i < |s| && s[i].frame == sc.frame
      ensures s[i] == sc
    {
      assert s[i] in multiset(list + [sc]);
    }
  }

  /** In a list sorted by frame where `sc` is the only scene at its frame, `sc` is the
      last scene not after that frame. */
  lemma SortedOnlyAtFrame(s: seq<Scene>, sc: Scene)
    requires forall i, j :: 0 <= i < j < |s| ==> LexLe(s[i].frame, s[j].frame)
    requires sc in s
    requires forall i :: 0 <= i < |s| && s[i].frame == sc.frame ==> s[i] == sc
    ensures LastAtMost(s, sc.frame).Some? && s[LastAtMost(s, sc.frame).value] == sc
  {
    var q :| 0 <= q < |s| && s[q] == sc;
    var f := sc.frame;
    LexLeReflexive(f);
    var p := LastAtMost(s, f).value;
    assert q <= p by {
      assert !LexLt(f, s[q].frame);
    }
    if q < p {
      LexLeAntisymmetric(s[p].frame, f);
      assert s[p] == sc;
    } else {
      assert p == q;
    }
  }

  /** After a Free or Busy click that added a scene, the refresh disables the clicked
      label's action, enables the other one and enables all three flag actions. */
  lemma AddedSceneShows(b: Buttons, id: string, list: seq<Scene>, label_: string, current: string)
    requires label_ == "free" || label_ == "busy"
    requires forall i :: 0 <= i < |list| ==> list[i].frame != current
    ensures Refreshed(b, PrevOf(Scenes(id, SortByKey(list + [Scene(Some(label_), current, [])], FrameOf)), current))
         == Buttons(label_ != "busy", label_ != "free", true, true, true)
  {
    AddedSceneIsPrev(id, list, Scene(Some(label_), current, []));
  }
}
