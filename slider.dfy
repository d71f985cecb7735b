/** The part of Qt's `QSlider` (a `QAbstractSlider`) both seek bars rely on: a range
    whose maximum is never below its minimum, a value kept inside that range, and a
    `valueChanged` signal emitted exactly when the value changes. */
module QtSlider {
  import MathUtil

  /** The `valueChanged` emissions of a change from `before` to `after`. */
  function Emitted(before: int, after: int): (r: seq<int>)
    ensures |r| <= 1 && (|r| == 1 <==> before != after) && (|r| == 1 ==> r[0] == after)
  {
    if before != after then [after] else []
  }

  class Slider {
    var minimum: int
    var maximum: int
    var value: int
    /** The values `valueChanged` carried, oldest first. */
    var emitted: seq<int>

    ghost predicate Valid()
      reads this
    {
      minimum <= value <= maximum
    }

    /** A new slider: range 0..99, value 0. */
    constructor ()
      ensures Valid()
      ensures minimum == 0 && maximum == 99 && value == 0 && emitted == []
    {
      minimum, maximum, value := 0, 99, 0;
      emitted := [];
    }

    /** `setValue`: the value bounded into the range; a change is emitted. */
    method SetValue(v: int)
      requires Valid()
      modifies this`value, this`emitted
      ensures Valid()
      ensures value == MathUtil.Clip(v, minimum, maximum)
      ensures emitted == old(emitted) + Emitted(old(value), value)
    {
      var bounded := MathUtil.Clip(v, minimum, maximum);
      if bounded != value {
        value := bounded;
        emitted := emitted + [bounded];
      }
    }

    /** `setRange(lo, hi)`: the maximum is raised to the minimum when below it, and the
        value is bounded into the new range. */
    method SetRange(lo: int, hi: int)
      requires Valid()
      modifies this
      ensures Valid()
      ensures minimum == lo && maximum == (if hi < lo then lo else hi)
      ensures value == MathUtil.Clip(old(value), minimum, maximum)
      ensures emitted == old(emitted) + Emitted(old(value), value)
    {
      minimum := lo;
      maximum := if hi < lo then lo else hi;
      // `setValue(value)` under the new range
      var bounded := MathUtil.Clip(value, minimum, maximum);
      if bounded != value {
        value := bounded;
        emitted := emitted + [bounded];
      }
    }

    /** `setMinimum(lo)`, which is `setRange(lo, max(maximum, lo))`. */
    method SetMinimum(lo: int)
      requires Valid()
      modifies this
      ensures Valid()
      ensures minimum == lo && maximum == (if old(maximum) < lo then lo else old(maximum))
      ensures value == MathUtil.Clip(old(value), minimum, maximum)
      ensures emitted == old(emitted) + Emitted(old(value), value)
    {
      SetRange(lo, if maximum < lo then lo else maximum);
    }

    /** `setMaximum(hi)`, which is `setRange(min(minimum, hi), hi)`. */
    method SetMaximum(hi: int)
      requires Valid()
      modifies this
      ensures Valid()
      ensures maximum == hi && minimum == (if hi < old(minimum) then hi else old(minimum))
      ensures value == MathUtil.Clip(old(value), minimum, maximum)
      ensures emitted == old(emitted) + Emitted(old(value), value)
    {
      SetRange(if hi < minimum then hi else minimum, hi);
    }
  }
}
