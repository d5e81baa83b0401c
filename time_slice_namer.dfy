/**
 * TimeSliceNamer.java: a revision of the slice namer that differs from SliceNamer.java only in how it logs.
 */
module TimeSliceNamers {
  import opened Wrappers
  import opened SliceClock
  import Decimal

  /** The namer's configuration, fixed at construction. */
  datatype TimeSliceNamer = TimeSliceNamer(timing: Timing) {

    predicate Valid() {
      timing.Valid()
    }

    /** The name of the slice containing `now`; it splits back into that slice's epoch and index. */
    function CurrentSliceName(now: int): (name: string)
      requires Valid() && now >= 0
      ensures ParseSliceName(name) == Some(CurrentSlice(timing, now))
    {
      var currentTime := now / timing.ratePeriodMillis;
      var currentBucket := (now / timing.sliceSizeMillis) % timing.numberOfSlices;
      SliceNameRoundTrip(SliceId(currentTime, currentBucket));
      Decimal.IntToString(currentTime) + "_" + Decimal.IntToString(currentBucket)
    }

    /**
     * Fills a fresh array with the names of the window, most recent first:
     * the slice number steps down by one, wrapping from 0 to N-1 and then
     * moving to the previous epoch.
     */
    method GetAllSliceNames(now: int) returns (names: array<string>)
      requires Valid() && now >= 0
      ensures fresh(names)
      ensures names[..] == AllSliceNames(timing, now)
    {
      var current := CurrentSlice(timing, now);
      var sliceTime, sliceNumber := current.epoch, current.index;
      names := new string[timing.numberOfSlices];
      ghost var window := AllSlices(timing, now);
      AllSlicesWindow(timing, now);
      for i := 0 to timing.numberOfSlices
        invariant i < timing.numberOfSlices ==> SliceId(sliceTime, sliceNumber) == window[i]
        invariant forall k :: 0 <= k < i ==> names[k] == SliceName(window[k])
      {
        names[i] := SliceName(SliceId(sliceTime, sliceNumber));
        if sliceNumber == 0 {
          sliceNumber := timing.numberOfSlices - 1;
          sliceTime := sliceTime - 1;
        } else {
          sliceNumber := sliceNumber - 1;
        }
      }
      AllSliceNamesWindow(timing, now);
      WalkNamesAt(timing, current, timing.numberOfSlices);
    }
  }

  /** The constructor: period in milliseconds and the truncated slice size, as SliceClock.FromSeconds derives them. */
  function NewTimeSliceNamer(ratePeriodSeconds: int, numberOfSlices: int): (n: TimeSliceNamer)
    requires 1 <= numberOfSlices <= ratePeriodSeconds
    ensures n.Valid()
    ensures n.timing.numberOfSlices == numberOfSlices
    ensures n.timing.ratePeriodMillis == ratePeriodSeconds * 1000
    ensures n.timing.sliceSizeMillis % 1000 == 0
    ensures n.timing.sliceSizeMillis * numberOfSlices <= n.timing.ratePeriodMillis
    ensures n.timing.ratePeriodMillis < (n.timing.sliceSizeMillis + 1000) * numberOfSlices
  {
    TimeSliceNamer(FromSeconds(ratePeriodSeconds, numberOfSlices))
  }
}
