/**
 * RateLimiterMemcache.java: a limiter whose slice counters live in
 * memcached, one counter per (limiter key, slice), named with the base
 * class's "~_~" format and left to expire after the period plus ten minutes.
 */
module MemcacheLimiters {
  import opened SliceClock
  import opened SliceNamers
  import opened RateLimiters
  import opened Counters

  /** Extra lifetime given to every slice counter beyond the rate period. */
  const SliceExpirationPaddingSeconds := 600

  /**
   * `getMemCacheSliceExpiration()`: the period in whole seconds plus the
   * padding, so a counter outlives the window it is read in by ten minutes.
   */
  function SliceExpiration(limiter: RateLimiter): (seconds: int)
    requires limiter.Valid()
    ensures seconds * 1000 == limiter.ratePeriodMillis + SliceExpirationPaddingSeconds * 1000
  {
    limiter.ratePeriodMillis / 1000 + SliceExpirationPaddingSeconds
  }

  /**
   * `getSliceNames(limiterKey)`: the key of every slice of the window,
   * most recent first, each the limiter key, "~_~" and the slice's name.
   * The window has one counter name per slice, the first is the current
   * slice's key, and no two names are equal.
   */
  function GetSliceNames(limiter: RateLimiter, limiterKey: string, now: int): (keys: seq<string>)
    requires limiter.Valid() && now >= 0
    ensures |keys| == limiter.numberOfSlices
    ensures keys[0] == limiter.GetSliceKey(limiterKey, now)
    ensures Distinct(keys)
  {
    var t := limiter.sliceNamer.timing;
    var names := AllSliceNames(t, now);
    AllSliceNamesWindow(t, now);
    var keys := seq(|names|, i requires 0 <= i < |names| => limiterKey + SliceKeySeparator + names[i]);
    assert forall i, j :: 0 <= i < j < |keys| ==> keys[i] != keys[j] by {
      forall i, j | 0 <= i < j < |keys|
        ensures keys[i] != keys[j]
      {
        var p := limiterKey + SliceKeySeparator;
        assert keys[i][|p|..] == names[i] && keys[j][|p|..] == names[j];
      }
    }
    keys
  }

  /** Slot i of the window's counter names is the limiter key, "~_~" and the name of slice i of the window. */
  lemma SliceNameAt(limiter: RateLimiter, limiterKey: string, now: int, i: int)
    requires limiter.Valid() && now >= 0 && 0 <= i < limiter.numberOfSlices
    ensures |AllSlices(limiter.sliceNamer.timing, now)| == limiter.numberOfSlices
    ensures GetSliceNames(limiter, limiterKey, now)[i]
         == limiterKey + SliceKeySeparator + SliceName(AllSlices(limiter.sliceNamer.timing, now)[i])
  {
    var t := limiter.sliceNamer.timing;
    AllSlicesWindow(t, now);
    WalkNamesAt(t, CurrentSlice(t, now), t.numberOfSlices);
  }

  /** The current slice key is the limiter key, "~_~" and the name of the current slice. */
  lemma CurrentKeyShape(limiter: RateLimiter, limiterKey: string, now: int)
    requires limiter.Valid() && now >= 0
    ensures limiter.GetSliceKey(limiterKey, now)
         == limiterKey + SliceKeySeparator + SliceName(CurrentSlice(limiter.sliceNamer.timing, now))
  {
  }

  /**
   * Every counter `isLimited` reads for `limiterKey` belongs to it: the
   * current slice key of any other limiter key, at any time, is not among
   * them.
   */
  lemma SliceNamesOwnKey(limiter: RateLimiter, limiterKey: string, otherKey: string, now: int, otherNow: int)
    requires limiter.Valid() && now >= 0 && otherNow >= 0
    requires limiter.GetSliceKey(otherKey, otherNow) in GetSliceNames(limiter, limiterKey, now)
    ensures otherKey == limiterKey
  {
    var t := limiter.sliceNamer.timing;
    var keys := GetSliceNames(limiter, limiterKey, now);
    var i :| 0 <= i < |keys| && keys[i] == limiter.GetSliceKey(otherKey, otherNow);
    SliceNameAt(limiter, limiterKey, now, i);
    CurrentKeyShape(limiter, otherKey, otherNow);
    var a, b := CurrentSlice(t, otherNow), AllSlices(t, now)[i];
    SeparatedSuffix(otherKey, limiterKey, SliceName(a), SliceName(b), a, b);
  }

  /**
   * The total `isLimited` reads right after `incrementCount(limiterKey, count)`
   * at the same time is the total before plus `count`: the counter just
   * incremented is one of the window's, whether or not it existed.
   */
  lemma IncrementIsCounted(limiter: RateLimiter, counters: map<string, Counter>, limiterKey: string, count: int, now: int)
    requires limiter.Valid() && now >= 0
    ensures var keys := GetSliceNames(limiter, limiterKey, now);
            var incremented := Incremented(counters, limiter.GetSliceKey(limiterKey, now), count, count, SliceExpiration(limiter));
            StoredSum(keys, incremented) == StoredSum(keys, counters) + count
  {
    var keys := GetSliceNames(limiter, limiterKey, now);
    assert keys[0] in keys;
    IncrRaisesSum(keys, counters, limiter.GetSliceKey(limiterKey, now), count, SliceExpiration(limiter));
  }

  /** Incrementing one limiter key leaves the total every other limiter key reads unchanged. */
  lemma IncrementLeavesOtherKeys(limiter: RateLimiter, counters: map<string, Counter>, limiterKey: string, otherKey: string, count: int, now: int, otherNow: int)
    requires limiter.Valid() && now >= 0 && otherNow >= 0 && otherKey != limiterKey
    ensures var keys := GetSliceNames(limiter, otherKey, otherNow);
            var incremented := Incremented(counters, limiter.GetSliceKey(limiterKey, now), count, count, SliceExpiration(limiter));
            StoredSum(keys, incremented) == StoredSum(keys, counters)
  {
    var keys := GetSliceNames(limiter, otherKey, otherNow);
    var name := limiter.GetSliceKey(limiterKey, now);
    if name in keys {
      SliceNamesOwnKey(limiter, otherKey, limiterKey, otherNow, now);
    }
    IncrRaisesSum(keys, counters, name, count, SliceExpiration(limiter));
  }

  /** RateLimiterMemcache: the base configuration and the memcached client it talks to. */
  class RateLimiterMemcache {
    const limiter: RateLimiter
    const client: CounterStore

    /** The constructor: the base class's configuration; connecting to the servers is not modelled. */
    constructor (rateLimit: int, ratePeriodSeconds: int, numberOfSlices: int, client: CounterStore)
      requires 1 <= numberOfSlices <= ratePeriodSeconds
      ensures limiter == NewRateLimiter(rateLimit, ratePeriodSeconds, numberOfSlices)
      ensures this.client == client
    {
      limiter := NewRateLimiter(rateLimit, ratePeriodSeconds, numberOfSlices);
      this.client := client;
    }

    /**
     * `incrementCount(limiterKey, count)`: `incr` on the current slice's
     * counter by `count`, created holding `count` with the slice expiry
     * when absent. No other counter changes.
     */
    method IncrementCount(limiterKey: string, count: int, now: int)
      requires limiter.Valid() && now >= 0
      modifies client
      ensures client.counters == Incremented(old(client.counters), limiter.GetSliceKey(limiterKey, now), count, count, SliceExpiration(limiter))
    {
      client.Incr(limiter.GetSliceKey(limiterKey, now), count, count, SliceExpiration(limiter));
    }

    /** `incrementCount(limiterKey)`: the base class's increment by one. */
    method IncrementCountByOne(limiterKey: string, now: int)
      requires limiter.Valid() && now >= 0
      modifies client
      ensures client.counters == Incremented(old(client.counters), limiter.GetSliceKey(limiterKey, now), 1, 1, SliceExpiration(limiter))
    {
      IncrementCount(limiterKey, 1, now);
    }

    /**
     * `isLimited(limiterKey, count)`: increments first unless `count` is
     * zero, reads the window's counters in one bulk request, adds up those
     * found (a missing counter adds nothing) and answers whether the total
     * is strictly above the rate limit.
     */
    method IsLimited(limiterKey: string, count: int, now: int) returns (isOverLimit: bool)
      requires limiter.Valid() && now >= 0
      modifies client
      ensures count != 0 ==> client.counters == Incremented(old(client.counters), limiter.GetSliceKey(limiterKey, now), count, count, SliceExpiration(limiter))
      ensures count == 0 ==> client.counters == old(client.counters)
      ensures isOverLimit <==> StoredSum(GetSliceNames(limiter, limiterKey, now), client.counters) > limiter.rateLimit
    {
      if count != 0 {
        IncrementCount(limiterKey, count, now);
      }
      var keys := GetSliceNames(limiter, limiterKey, now);
      var slices := client.GetBulk(keys);
      var slicesSum := 0;
      for i := 0 to |keys|
        invariant slicesSum == FoundSum(keys[..i], slices)
      {
        assert keys[..i + 1][..i] == keys[..i];
        if keys[i] in slices {
          slicesSum := slicesSum + slices[keys[i]];
        }
      }
      assert keys[..|keys|] == keys;
      FoundSumIsStoredSum(keys, slices, client.counters);
      isOverLimit := slicesSum > limiter.rateLimit;
    }

    /** `isLimited(limiterKey)`: the base class's check with count zero, which changes no counter. */
    method IsLimitedWithoutCount(limiterKey: string, now: int) returns (isOverLimit: bool)
      requires limiter.Valid() && now >= 0
      modifies client
      ensures client.counters == old(client.counters)
      ensures isOverLimit <==> StoredSum(GetSliceNames(limiter, limiterKey, now), client.counters) > limiter.rateLimit
    {
      isOverLimit := IsLimited(limiterKey, 0, now);
    }
  }
}
