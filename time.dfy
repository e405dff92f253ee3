/** CoreMedia's rational time values (CMTime) and the rounding rule of
    CMTimeMakeWithSeconds, in exact arithmetic. */
module Time {

  /** Ticks per second of every time point Regift builds (Constants.TimeInterval). */
  const TimeInterval: int := 600

  /** A CMTime: `value` ticks of a clock running at `timescale` ticks per second. */
  datatype TimePoint = TimePoint(value: int, timescale: int)
  {
    /** A numeric CMTime has a positive timescale. */
    predicate Valid()
    {
      timescale > 0
    }
  }

  /** Nearest integer to `x`, halves rounded away from zero (CoreMedia's
      default rounding method). */
  function RoundHalfAwayFromZero(x: real): (r: int)
    ensures 0.0 <= x ==> r as real - 0.5 <= x < r as real + 0.5
    ensures x < 0.0 ==> r as real - 0.5 < x <= r as real + 0.5
  {
    if 0.0 <= x then (x + 0.5).Floor else -(-x + 0.5).Floor
  }

  /** Rounding never reverses the order of two values. */
  lemma RoundingIsMonotone(x: real, y: real)
    requires x <= y
    ensures RoundHalfAwayFromZero(x) <= RoundHalfAwayFromZero(y)
  {
  }

  /** CMTimeMakeWithSeconds: the tick of `preferredTimescale` nearest to `seconds`. */
  function MakeWithSeconds(seconds: real, preferredTimescale: int): (t: TimePoint)
    requires preferredTimescale > 0
    ensures t.Valid() && t.timescale == preferredTimescale
    ensures t.value as real - 0.5 <= seconds * preferredTimescale as real <= t.value as real + 0.5
    ensures 0.0 <= seconds ==> 0 <= t.value
  {
    TimePoint(RoundHalfAwayFromZero(seconds * preferredTimescale as real), preferredTimescale)
  }
}
