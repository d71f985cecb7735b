/** ParkingLotAnnotTool/core/classifyconditions/seekbar.py: the frame seek bar of the
    conditions classifier. Its press/tick/release handlers are those of the scene seek
    bar (the same step rule, `SceneSeekBar.Stepped`); it keeps four sets of marked
    frames, sunny, rainy, day and night. */
module ConditionsSeekBar {
  import opened Common
  import MathUtil
  import opened QtSlider
  import opened SceneSeekBar

  class SeekBarWidget {
    const slider: Slider
    var increment: int
    var longPressDetected: bool
    /** Whether the 100 ms timer that fires `update_index` is running. */
    var timerActive: bool
    /** `conditions['sunny']`, `['rainy']`, `['day']` and `['night']`: the marked frame
        numbers. */
    var sunny: set<int>
    var rainy: set<int>
    var day: set<int>
    var night: set<int>

    ghost predicate Valid()
      reads this, slider
    {
      slider.Valid()
    }

    /** A new bar: slider range 0..100 at 0, no marks, no press in progress. */
    constructor ()
      ensures Valid() && fresh(slider)
      ensures slider.minimum == 0 && slider.maximum == 100 && slider.value == 0 && slider.emitted == []
      ensures increment == 0 && !longPressDetected && !timerActive
      ensures sunny == {} && rainy == {} && day == {} && night == {}
    {
      var s := new Slider();
      s.SetMinimum(0);
      s.SetMaximum(100);
      s.SetValue(0);
      slider := s;
      sunny, rainy, day, night := {}, {}, {}, {};
      increment := 0;
      longPressDetected := false;
      timerActive := false;
    }

    /** `start_next_timer`, on pressing next. */
    method StartNextTimer()
      modifies this`increment, this`longPressDetected, this`timerActive
      ensures increment == 1 && !longPressDetected && timerActive
    {
      increment := 1;
      longPressDetected := false;
      timerActive := true;
    }

    /** `start_prev_timer`, on pressing prev. */
    method StartPrevTimer()
      modifies this`increment, this`longPressDetected, this`timerActive
      ensures increment == -1 && !longPressDetected && timerActive
    {
      increment := -1;
      longPressDetected := false;
      timerActive := true;
    }

    /** `stop_timer_and_update`, on releasing either button. */
    method StopTimerAndUpdate()
      requires Valid()
      modifies this`timerActive, slider`value, slider`emitted
      ensures Valid() && !timerActive
      ensures slider.value == Released(old(slider.value), increment, slider.minimum, slider.maximum, longPressDetected)
      ensures slider.emitted == old(slider.emitted) + Emitted(old(slider.value), slider.value)
    {
      timerActive := false;
      if !longPressDetected {
        var value := slider.value;
        slider.SetValue(if value + increment < slider.minimum then slider.minimum else value + increment);
      }
    }

    /** `update_index`, on each timer tick while a button is held. */
    method UpdateIndex()
      requires Valid()
      modifies this`longPressDetected, slider`value, slider`emitted
      ensures Valid() && longPressDetected
      ensures slider.value == Stepped(old(slider.value), increment, slider.minimum, slider.maximum)
      ensures slider.emitted == old(slider.emitted) + Emitted(old(slider.value), slider.value)
    {
      longPressDetected := true;
      var value := slider.value;
      slider.SetValue(if value + increment < slider.minimum then slider.minimum else value + increment);
    }

    /** `reset_conditions` (the repaint is not modelled). */
    method ResetConditions()
      modifies this`sunny, this`rainy, this`day, this`night
      ensures sunny == {} && rainy == {} && day == {} && night == {}
    {
      sunny, rainy, day, night := {}, {}, {}, {};
    }

    /** `set_maxvalue`. */
    method SetMaxValue(value: int)
      requires Valid()
      modifies slider
      ensures Valid()
      ensures slider.maximum == value && slider.minimum == (if value < old(slider.minimum) then value else old(slider.minimum))
      ensures slider.value == MathUtil.Clip(old(slider.value), slider.minimum, slider.maximum)
      ensures slider.emitted == old(slider.emitted) + Emitted(old(slider.value), slider.value)
    {
      slider.SetMaximum(value);
    }

    /** `get_value`. */
    method GetValue() returns (v: int)
      requires Valid()
      ensures v == slider.value && slider.minimum <= v <= slider.maximum
    {
      v := slider.value;
    }

    /** `get_value_str`: `f"{value:05d}"`, the value zero-padded to at least five
        characters. */
    method GetValueStr() returns (r: string)
      ensures r == FrameString(slider.value) && |r| >= 5
      ensures slider.value >= 0 ==> IsDigits(r) && ParseDigits(r) == slider.value
      ensures 0 <= slider.value < 100000 ==> |r| == 5
      ensures slider.value < 0 ==> (r[0] == '-' && IsDigits(r[1..]) && ParseDigits(r[1..]) == -slider.value)
    {
      r := ZFill(IntToStr(slider.value), 5);
      FrameStringValue(slider.value);
    }

    /** `set_value`. */
    method SetValue(value: int)
      requires Valid()
      modifies slider`value, slider`emitted
      ensures Valid()
      ensures slider.value == MathUtil.Clip(value, slider.minimum, slider.maximum)
      ensures slider.emitted == old(slider.emitted) + Emitted(old(slider.value), slider.value)
    {
      slider.SetValue(value);
    }

    /** `add_sunny_condition`: marks the current frame sunny. */
    method AddSunnyCondition()
      modifies this`sunny
      ensures sunny == old(sunny) + {slider.value}
    {
      sunny := sunny + {slider.value};
    }

    /** `add_rainy_condition`: marks the current frame rainy. */
    method AddRainyCondition()
      modifies this`rainy
      ensures rainy == old(rainy) + {slider.value}
    {
      rainy := rainy + {slider.value};
    }

    /** `add_day_condition`: marks the current frame day. */
    method AddDayCondition()
      modifies this`day
      ensures day == old(day) + {slider.value}
    {
      day := day + {slider.value};
    }

    /** `add_night_condition`: marks the current frame night. */
    method AddNightCondition()
      modifies this`night
      ensures night == old(night) + {slider.value}
    {
      night := night + {slider.value};
    }

    /** `remove_sunny_condition(value)`: ok is false where `set.remove` raises
        KeyError, and the set is then unchanged. */
    method RemoveSunnyCondition(value: int) returns (ok: bool)
      modifies this`sunny
      ensures ok <==> value in old(sunny)
      ensures sunny == old(sunny) - {value}
    {
      if value !in sunny {
        return false;
      }
      sunny := sunny - {value};
      ok := true;
    }

    /** `remove_rainy_condition(value)`: ok is false where `set.remove` raises
        KeyError, and the set is then unchanged. */
    method RemoveRainyCondition(value: int) returns (ok: bool)
      modifies this`rainy
      ensures ok <==> value in old(rainy)
      ensures rainy == old(rainy) - {value}
    {
      if value !in rainy {
        return false;
      }
      rainy := rainy - {value};
      ok := true;
    }

    /** `remove_day_condition(value)`: ok is false where `set.remove` raises
        KeyError, and the set is then unchanged. */
    method RemoveDayCondition(value: int) returns (ok: bool)
      modifies this`day
      ensures ok <==> value in old(day)
      ensures day == old(day) - {value}
    {
      if value !in day {
        return false;
      }
      day := day - {value};
      ok := true;
    }

    /** `remove_night_condition(value)`: ok is false where `set.remove` raises
        KeyError, and the set is then unchanged. */
    method RemoveNightCondition(value: int) returns (ok: bool)
      modifies this`night
      ensures ok <==> value in old(night)
      ensures night == old(night) - {value}
    {
      if value !in night {
        return false;
      }
      night := night - {value};
      ok := true;
    }
  }
}
