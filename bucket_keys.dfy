/**
 * BucketKeys.java: the earlier revision of the slice namer, used by RateLimiterMemcached.java.
 * It stores the rate count as well but never uses it.
 */
module BucketKeyNamers {
  import opened Wrappers
  import opened SliceClock
  import Decimal

  /** The key generator's configuration, fixed at construction. */
  datatype BucketKeys = BucketKeys(rateCount: int, timing: Timing) {

    predicate Valid() {
      timing.Valid()
    }

    /** The name of the slice containing `now`; it splits back into that slice's epoch and index. */
    function GetCurrentBucketKey(now: int): (name: string)
      requires Valid() && now >= 0
      ensures ParseSliceName(name) == Some(CurrentSlice(timing, now))
    {
      var currentTime := now / timing.ratePeriodMillis;
      var currentBucket := (now / timing.sliceSizeMillis) % timing.numberOfSlices;
      SliceNameRoundTrip(SliceId(currentTime, currentBucket));
      Decimal.IntToString(currentTime) + "_" + Decimal.IntToString(currentBucket)
    }

    /**
     * Fills a fresh array with the names of the window, most recent first:
     * the bucket number steps down by one, wrapping from 0 to N-1 and then
     * moving to the previous epoch.
     */
    method GetAllBucketKeys(now: int) returns (keys: array<string>)
      requires Valid() && now >= 0
      ensures fresh(keys)
      ensures keys[..] == AllSliceNames(timing, now)
    {
      var current := CurrentSlice(timing, now);
      var bucketTime, bucketNumber := current.epoch, current.index;
      keys := new string[timing.numberOfSlices];
      ghost var window := AllSlices(timing, now);
      AllSlicesWindow(timing, now);
      for i := 0 to timing.numberOfSlices
        invariant i < timing.numberOfSlices ==> SliceId(bucketTime, bucketNumber) == window[i]
        invariant forall k :: 0 <= k < i ==> keys[k] == SliceName(window[k])
      {
        keys[i] := SliceName(SliceId(bucketTime, bucketNumber));
        if bucketNumber == 0 {
          bucketNumber := timing.numberOfSlices - 1;
          bucketTime := bucketTime - 1;
        } else {
          bucketNumber := bucketNumber - 1;
        }
      }
      AllSliceNamesWindow(timing, now);
      WalkNamesAt(timing, current, timing.numberOfSlices);
    }
  }

  /** The constructor: period in milliseconds and the truncated slice size, as SliceClock.FromSeconds derives them. */
  function NewBucketKeys(rateCount: int, ratePeriodSeconds: int, numberOfBuckets: int): (n: BucketKeys)
    requires 1 <= numberOfBuckets <= ratePeriodSeconds
    ensures n.Valid()
    ensures n.rateCount == rateCount
    ensures n.timing.numberOfSlices == numberOfBuckets
    ensures n.timing.ratePeriodMillis == ratePeriodSeconds * 1000
    ensures n.timing.sliceSizeMillis % 1000 == 0
    ensures n.timing.sliceSizeMillis * numberOfBuckets <= n.timing.ratePeriodMillis
    ensures n.timing.ratePeriodMillis < (n.timing.sliceSizeMillis + 1000) * numberOfBuckets
  {
    BucketKeys(rateCount, FromSeconds(ratePeriodSeconds, numberOfBuckets))
  }
}
