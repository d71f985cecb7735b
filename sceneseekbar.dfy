/** ParkingLotAnnotTool/core/classifyscene/seekbar.py: the frame seek bar of the scene
    classifier. Its prev/next buttons step the slider once on a short click and once per
    timer tick (every 100 ms) while held; the bar also keeps the frames marked busy and
    free. The stepping rule here is shared with the conditions seek bar. */
module SceneSeekBar {
  import opened Common
  import MathUtil
  import opened QtSlider

  /** One step from v: `setValue(max(v + increment, minimum))`, which the slider then
      bounds into its range. */
  function Stepped(v: int, increment: int, minimum: int, maximum: int): (r: int)
    // never below the minimum, and within the range whenever it is not empty
    ensures r >= minimum
    ensures minimum <= maximum ==> r <= maximum
    // a step that stays in range is taken exactly
    ensures minimum <= v + increment <= maximum ==> r == v + increment
    // a step past either end stops at that end
    ensures v + increment < minimum ==> r == minimum
    ensures minimum <= maximum < v + increment ==> r == maximum
  {
    MathUtil.Clip(if v + increment < minimum then minimum else v + increment, minimum, maximum)
  }

  /** The value after k timer ticks of `update_index`. */
  function AfterTicks(v: int, increment: int, minimum: int, maximum: int, k: nat): int
    decreases k
  {
    if k == 0 then v else Stepped(AfterTicks(v, increment, minimum, maximum, k - 1), increment, minimum, maximum)
  }

  /** The value after `stop_timer_and_update`: one step unless a tick has already been
      seen since the press. */
  function Released(v: int, increment: int, minimum: int, maximum: int, longPress: bool): int
  {
    if longPress then v else Stepped(v, increment, minimum, maximum)
  }

  /** From a value in range, k ticks of next (+1) or prev (-1) move by k, stopping at
      the end of the range. */
  lemma {:induction false} TicksMove(v: int, increment: int, minimum: int, maximum: int, k: nat)
    requires minimum <= v <= maximum && (increment == 1 || increment == -1)
    ensures AfterTicks(v, increment, minimum, maximum, k) ==
      MathUtil.Clip(if increment == 1 then v + k else v - k, minimum, maximum)
    decreases k
  {
    if k > 0 {
      TicksMove(v, increment, minimum, maximum, k - 1);
    }
  }

  /** A press, k ticks and the release: a short click (no tick) moves exactly one step,
      a long press exactly one step per tick, never past either end of the range. */
  lemma PressReleaseMoves(v: int, increment: int, minimum: int, maximum: int, k: nat)
    requires minimum <= v <= maximum && (increment == 1 || increment == -1)
    ensures var steps := if k == 0 then 1 else k;
      Released(AfterTicks(v, increment, minimum, maximum, k), increment, minimum, maximum, k > 0) ==
      MathUtil.Clip(if increment == 1 then v + steps else v - steps, minimum, maximum)
  {
    TicksMove(v, increment, minimum, maximum, k);
    if k == 0 {
      TicksMove(v, increment, minimum, maximum, 1);
    }
  }

  class SeekBarWidget {
    const slider: Slider
    var increment: int
    var longPressDetected: bool
    /** Whether the 100 ms timer that fires `update_index` is running. */
    var timerActive: bool
    /** `scenes['busy']` and `scenes['free']`: the marked frame numbers. */
    var busy: set<int>
    var free: set<int>

    ghost predicate Valid()
      reads this, slider
    {
      slider.Valid()
    }

    /** A new bar: slider range 0..100 at 0, no marks, no press in progress. */
    constructor ()
      ensures Valid() && fresh(slider)
      ensures slider.minimum == 0 && slider.maximum == 100 && slider.value == 0 && slider.emitted == []
      ensures increment == 0 && !longPressDetected && !timerActive && busy == {} && free == {}
    {
      var s := new Slider();
      s.SetMinimum(0);
      s.SetMaximum(100);
      s.SetValue(0);
      slider := s;
      busy, free := {}, {};
      increment := 0;
      longPressDetected := false;
      timerActive := false;
    }

    /** `start_next_timer`, on pressing next. */
    method StartNextTimer()
      modifies this`increment, this`longPressDetected, this`timerActive
      ensures increment == 1 && !longPressDetected && timerActive
    {
      increment := 1;
      longPressDetected := false;
      timerActive := true;
    }

    /** `start_prev_timer`, on pressing prev. */
    method StartPrevTimer()
      modifies this`increment, this`longPressDetected, this`timerActive
      ensures increment == -1 && !longPressDetected && timerActive
    {
      increment := -1;
      longPressDetected := false;
      timerActive := true;
    }

    /** `stop_timer_and_update`, on releasing either button. */
    method StopTimerAndUpdate()
      requires Valid()
      modifies this`timerActive, slider`value, slider`emitted
      ensures Valid() && !timerActive
      ensures slider.value == Released(old(slider.value), increment, slider.minimum, slider.maximum, longPressDetected)
      ensures slider.emitted == old(slider.emitted) + Emitted(old(slider.value), slider.value)
    {
      timerActive := false;
      if !longPressDetected {
        var value := slider.value;
        slider.SetValue(if value + increment < slider.minimum then slider.minimum else value + increment);
      }
    }

    /** `update_index`, on each timer tick while a button is held. */
    method UpdateIndex()
      requires Valid()
      modifies this`longPressDetected, slider`value, slider`emitted
      ensures Valid() && longPressDetected
      ensures slider.value == Stepped(old(slider.value), increment, slider.minimum, slider.maximum)
      ensures slider.emitted == old(slider.emitted) + Emitted(old(slider.value), slider.value)
    {
      longPressDetected := true;
      var value := slider.value;
      slider.SetValue(if value + increment < slider.minimum then slider.minimum else value + increment);
    }

    /** `reset_scenes` (the repaint is not modelled). */
    method ResetScenes()
      modifies this`busy, this`free
      ensures busy == {} && free == {}
    {
      busy, free := {}, {};
    }

    /** `set_maxvalue`. */
    method SetMaxValue(value: int)
      requires Valid()
      modifies slider
      ensures Valid()
      ensures slider.maximum == value && slider.minimum == (if value < old(slider.minimum) then value else old(slider.minimum))
      ensures slider.value == MathUtil.Clip(old(slider.value), slider.minimum, slider.maximum)
      ensures slider.emitted == old(slider.emitted) + Emitted(old(slider.value), slider.value)
    {
      slider.SetMaximum(value);
    }

    /** `get_value`. */
    method GetValue() returns (v: int)
      requires Valid()
      ensures v == slider.value && slider.minimum <= v <= slider.maximum
    {
      v := slider.value;
    }

    /** `get_value_str`: `f"{value:05d}"`, the value zero-padded to at least five
        characters. */
    method GetValueStr() returns (r: string)
      ensures r == FrameString(slider.value) && |r| >= 5
      ensures slider.value >= 0 ==> IsDigits(r) && ParseDigits(r) == slider.value
      ensures 0 <= slider.value < 100000 ==> |r| == 5
      ensures slider.value < 0 ==> (r[0] == '-' && IsDigits(r[1..]) && ParseDigits(r[1..]) == -slider.value)
    {
      r := ZFill(IntToStr(slider.value), 5);
      FrameStringValue(slider.value);
    }

    /** `set_value`. */
    method SetValue(value: int)
      requires Valid()
      modifies slider`value, slider`emitted
      ensures Valid()
      ensures slider.value == MathUtil.Clip(value, slider.minimum, slider.maximum)
      ensures slider.emitted == old(slider.emitted) + Emitted(old(slider.value), slider.value)
    {
      slider.SetValue(value);
    }

    /** `add_busy_scene`: marks the current frame busy; marking it twice is marking it
        once. */
    method AddBusyScene()
      modifies this`busy
      ensures busy == old(busy) + {slider.value}
    {
      busy := busy + {slider.value};
    }

    /** `add_free_scene`. */
    method AddFreeScene()
      modifies this`free
      ensures free == old(free) + {slider.value}
    {
      free := free + {slider.value};
    }

    /** `remove_busy_scene(value)`: ok is false where `set.remove` raises KeyError, and
        the set is then unchanged. */
    method RemoveBusyScene(value: int) returns (ok: bool)
      modifies this`busy
      ensures ok <==> value in old(busy)
      ensures busy == old(busy) - {value}
    {
      if value !in busy {
        return false;
      }
      busy := busy - {value};
      ok := true;
    }

    /** `remove_free_scene(value)`. */
    method RemoveFreeScene(value: int) returns (ok: bool)
      modifies this`free
      ensures ok <==> value in old(free)
      ensures free == old(free) - {value}
    {
      if value !in free {
        return false;
      }
      free := free - {value};
      ok := true;
    }
  }
}
