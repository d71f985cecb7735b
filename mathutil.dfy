/** ParkingLotAnnotTool/utils/math.py: clamping a number into a range. */
module MathUtil {

  /** `clip(value, lower, upper)`, that is `max(lower, min(value, upper))`. */
  function Clip(value: int, lower: int, upper: int): (r: int)
    // in range whenever the range is not empty
    ensures lower <= upper ==> lower <= r <= upper
    // a value already in range is kept
    ensures lower <= value <= upper ==> r == value
    // out-of-range values go to the nearer end
    ensures value < lower ==> r == lower
    ensures lower <= upper < value ==> r == upper
    // an empty range always yields its lower end
    ensures upper < lower ==> r == lower
  {
    var m := if value < upper then value else upper;
    if lower < m then m else lower
  }

  /** Clipping twice is clipping once. */
  lemma ClipIdempotent(value: int, lower: int, upper: int)
    ensures Clip(Clip(value, lower, upper), lower, upper) == Clip(value, lower, upper)
  {
  }
}
