/** The evenly spaced time points at which `createGIFFromURL` samples a video:
    frame i of N sits at i * (duration / N) seconds, snapped to the nearest
    1/600 s tick. */
module Scheduler {
  import opened Time

  /** The movie's length in seconds, as an exact rational. */
  function MovieLength(duration: TimePoint): (seconds: real)
    requires duration.Valid()
    ensures seconds * duration.timescale as real == duration.value as real
  {
    duration.value as real / duration.timescale as real
  }

  /** Seconds between two consecutive sample points, before snapping. */
  function Increment(duration: TimePoint, frameCount: nat): (inc: real)
    requires duration.Valid() && frameCount > 0
    ensures inc * frameCount as real == MovieLength(duration)
  {
    MovieLength(duration) / frameCount as real
  }

  /** Exact offset in seconds of sample `frameNumber`. */
  function ExactPoint(duration: TimePoint, frameCount: nat, frameNumber: nat): (s: real)
    requires duration.Valid() && frameNumber < frameCount
    ensures s * frameCount as real == frameNumber as real * MovieLength(duration)
  {
    Increment(duration, frameCount) * frameNumber as real
  }

  /** Sample `frameNumber` as CMTimeMakeWithSeconds builds it: the tick of a 600 Hz
      clock nearest to its exact offset. */
  function TimePointAt(duration: TimePoint, frameCount: nat, frameNumber: nat): (t: TimePoint)
    requires duration.Valid() && frameNumber < frameCount
    ensures t.timescale == TimeInterval
    ensures t.value as real - 0.5 <= ExactPoint(duration, frameCount, frameNumber) * TimeInterval as real <= t.value as real + 0.5
  {
    MakeWithSeconds(ExactPoint(duration, frameCount, frameNumber), TimeInterval)
  }

  /** The time-point loop of `createGIFFromURL`: one point per frame, in frame order. */
  method EvenlySpacedTimePoints(duration: TimePoint, frameCount: nat) returns (timePoints: seq<TimePoint>)
    requires duration.Valid()
    ensures |timePoints| == frameCount
    ensures forall i :: 0 <= i < frameCount ==> timePoints[i] == TimePointAt(duration, frameCount, i)
  {
    var movieLength := duration.value as real / duration.timescale as real;
    // With no frames the increment is never used.
    var increment := if frameCount == 0 then 0.0 else movieLength / frameCount as real;
    timePoints := [];
    for frameNumber := 0 to frameCount
      invariant |timePoints| == frameNumber
      invariant forall i :: 0 <= i < frameNumber ==> timePoints[i] == TimePointAt(duration, frameCount, i)
    {
      var seconds := increment * frameNumber as real;
      var time := MakeWithSeconds(seconds, TimeInterval);
      timePoints := timePoints + [time];
    }
  }

  /** The first sample is at the very start of the video. */
  lemma FirstTimePointIsZero(duration: TimePoint, frameCount: nat)
    requires duration.Valid() && frameCount >= 1
    ensures TimePointAt(duration, frameCount, 0) == TimePoint(0, TimeInterval)
  {
  }

  /** Before snapping, consecutive samples are exactly duration / frameCount apart. */
  lemma ExactPointsAreEvenlySpaced(duration: TimePoint, frameCount: nat, frameNumber: nat)
    requires duration.Valid() && frameNumber + 1 < frameCount
    ensures ExactPoint(duration, frameCount, frameNumber + 1) - ExactPoint(duration, frameCount, frameNumber)
         == MovieLength(duration) / frameCount as real
  {
  }

  /** Before snapping, every sample of a non-empty video lies in [0, duration),
      and the last one is one increment short of the end. */
  lemma ExactPointsStayBeforeTheEnd(duration: TimePoint, frameCount: nat, frameNumber: nat)
    requires duration.Valid() && 0 < duration.value && frameNumber < frameCount
    ensures 0.0 <= ExactPoint(duration, frameCount, frameNumber) < MovieLength(duration)
    ensures ExactPoint(duration, frameCount, frameCount - 1) == MovieLength(duration) - Increment(duration, frameCount)
  {
    var inc := Increment(duration, frameCount);
    assert 0.0 < inc;
    assert ExactPoint(duration, frameCount, frameNumber) == inc * frameNumber as real;
    assert inc * frameNumber as real < inc * frameCount as real;
  }

  /** Snapped samples never go backwards in frame order. */
  lemma TimePointsAreNonDecreasing(duration: TimePoint, frameCount: nat, i: nat, j: nat)
    requires duration.Valid() && 0 <= duration.value && i <= j < frameCount
    ensures TimePointAt(duration, frameCount, i).value <= TimePointAt(duration, frameCount, j).value
  {
    var inc := Increment(duration, frameCount);
    assert 0.0 <= inc;
    assert inc * i as real <= inc * j as real;
    RoundingIsMonotone(ExactPoint(duration, frameCount, i) * TimeInterval as real,
                       ExactPoint(duration, frameCount, j) * TimeInterval as real);
  }

  /** After snapping, consecutive samples are one increment apart to within one tick. */
  lemma TimePointsAreEvenlySpacedToATick(duration: TimePoint, frameCount: nat, frameNumber: nat)
    requires duration.Valid() && 0 <= duration.value && frameNumber + 1 < frameCount
    ensures var gap := TimePointAt(duration, frameCount, frameNumber + 1).value - TimePointAt(duration, frameCount, frameNumber).value;
            var ideal := Increment(duration, frameCount) * TimeInterval as real;
            ideal - 1.0 < gap as real < ideal + 1.0
  {
    var x := ExactPoint(duration, frameCount, frameNumber) * TimeInterval as real;
    var y := ExactPoint(duration, frameCount, frameNumber + 1) * TimeInterval as real;
    assert 0.0 <= x;
    ExactPointsAreEvenlySpaced(duration, frameCount, frameNumber);
    assert y - x == Increment(duration, frameCount) * TimeInterval as real;
  }

  /** No snapped sample passes the duration snapped to the same clock. */
  lemma TimePointsStayWithinTheDuration(duration: TimePoint, frameCount: nat, frameNumber: nat)
    requires duration.Valid() && 0 <= duration.value && frameNumber < frameCount
    ensures TimePointAt(duration, frameCount, frameNumber).value <= MakeWithSeconds(MovieLength(duration), TimeInterval).value
  {
    var inc := Increment(duration, frameCount);
    assert 0.0 <= inc;
    assert inc * frameNumber as real <= inc * frameCount as real;
    RoundingIsMonotone(ExactPoint(duration, frameCount, frameNumber) * TimeInterval as real,
                       MovieLength(duration) * TimeInterval as real);
  }

  /** A ten-second video sampled five times gives the points 0, 2, 4, 6 and 8 s. */
  lemma TenSecondsInFiveFrames()
    ensures forall i :: 0 <= i < 5 ==> TimePointAt(TimePoint(6000, 600), 5, i) == TimePoint(1200 * i, TimeInterval)
  {
    forall i | 0 <= i < 5
      ensures TimePointAt(TimePoint(6000, 600), 5, i) == TimePoint(1200 * i, TimeInterval)
    {
      assert ExactPoint(TimePoint(6000, 600), 5, i) == 2.0 * i as real;
    }
  }
}
