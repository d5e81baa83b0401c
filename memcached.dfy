/**
 * RateLimiterMemcached.java: the earlier memcached limiter. Its counters
 * are named by BucketKeys, joined to the key with "-", and `isLimited`
 * rewrites the array of bucket names into counter names in place.
 */
module MemcachedLimiters {
  import opened Wrappers
  import opened SliceClock
  import opened BucketKeyNamers
  import opened RateLimiters
  import opened Counters
  import Decimal
  import opened Arithmetic

  /** Extra lifetime given to every bucket counter beyond the rate period. */
  const BucketExpirationPaddingSeconds := 600

  /** Joins a key and a bucket name into a counter name. */
  const MemCacheKeySeparator: string := "-"

  /** `getMemCacheBucketExpiration()`: the period in whole seconds plus the padding. */
  function BucketExpiration(limiter: RateLimiter): (seconds: int)
    requires limiter.Valid()
    ensures seconds * 1000 == limiter.ratePeriodMillis + BucketExpirationPaddingSeconds * 1000
  {
    limiter.ratePeriodMillis / 1000 + BucketExpirationPaddingSeconds
  }

  /** `getMemCacheKey(key, bucketKey)`: the counter name of one bucket of `key`. */
  function GetMemCacheKeyFor(key: string, bucketKey: string): (name: string)
    ensures |name| == |key| + 1 + |bucketKey|
    ensures name[..|key|] == key && name[|key|] == '-' && name[|key| + 1..] == bucketKey
  {
    key + MemCacheKeySeparator + bucketKey
  }

  /**
   * `getMemCacheKey(key)`: the counter name of the current bucket. It
   * splits back into the key, the separator and the current slice.
   */
  function GetMemCacheKey(keyedBuckets: BucketKeys, key: string, now: int): (name: string)
    requires keyedBuckets.Valid() && now >= 0
    ensures |name| > |key| + |MemCacheKeySeparator|
    ensures name[..|key|] == key && name[|key|] == '-'
    ensures ParseSliceName(name[|key| + 1..]) == Some(CurrentSlice(keyedBuckets.timing, now))
  {
    var bucketKey := keyedBuckets.GetCurrentBucketKey(now);
    var name := GetMemCacheKeyFor(key, bucketKey);
    assert name[|key| + 1..] == bucketKey;
    name
  }

  /** Every bucket name of the window, rewritten into the counter names of `key`, most recent first. */
  function MemCacheKeys(keyedBuckets: BucketKeys, key: string, now: int): (keys: seq<string>)
    requires keyedBuckets.Valid() && now >= 0
    ensures |keys| == keyedBuckets.timing.numberOfSlices
    ensures keys[0] == GetMemCacheKey(keyedBuckets, key, now)
    ensures Distinct(keys)
  {
    var names := AllSliceNames(keyedBuckets.timing, now);
    AllSliceNamesWindow(keyedBuckets.timing, now);
    var keys := seq(|names|, i requires 0 <= i < |names| => GetMemCacheKeyFor(key, names[i]));
    assert forall i, j :: 0 <= i < j < |keys| ==> keys[i] != keys[j] by {
      forall i, j | 0 <= i < j < |keys|
        ensures keys[i] != keys[j]
      {
        var p := key + MemCacheKeySeparator;
        assert keys[i][|p|..] == names[i] && keys[j][|p|..] == names[j];
      }
    }
    keys
  }

  /** The name of a slice of a non-negative epoch holds no '-'. */
  lemma NameWithoutDash(id: SliceId)
    requires id.epoch >= 0 && id.index >= 0
    ensures '-' !in SliceName(id)
  {
    var a, b := Decimal.IntToString(id.epoch), Decimal.IntToString(id.index);
    assert a == Decimal.NatToString(id.epoch) && b == Decimal.NatToString(id.index);
    var s := SliceName(id);
    assert s == a + "_" + b;
    forall k | 0 <= k < |s|
      ensures s[k] != '-'
    {
      if k < |a| {
        assert s[k] == a[k];
      } else if k > |a| {
        assert s[k] == b[k - |a| - 1];
      }
    }
  }

  /**
   * Two counter names whose bucket names hold no '-' are equal only for
   * the same key and the same bucket: the last '-' is the separator.
   */
  lemma MemCacheKeySplit(k1: string, k2: string, n1: string, n2: string)
    requires '-' !in n1 && '-' !in n2
    requires GetMemCacheKeyFor(k1, n1) == GetMemCacheKeyFor(k2, n2)
    ensures k1 == k2 && n1 == n2
  {
    var s := GetMemCacheKeyFor(k1, n1);
    assert s == k1 + "-" + n1 && s == k2 + "-" + n2;
    // each name's separator sits just before it, and the other name holds no '-'
    assert s[|s| - |n1| - 1] == '-' && s[|s| - |n2| - 1] == '-';
    assert |n1| == |n2|;
    assert n1 == s[|s| - |n1|..] == n2;
    assert k1 == s[..|k1|] == k2;
  }

  /** Once the clock is past the first period, every slice of the window has a non-negative epoch. */
  lemma WindowEpochs(t: Timing, now: int, i: int)
    requires t.Valid() && now >= t.ratePeriodMillis && 0 <= i < t.numberOfSlices
    ensures |AllSlices(t, now)| == t.numberOfSlices
    ensures AllSlices(t, now)[i].epoch >= 0 && AllSlices(t, now)[i].index >= 0
  {
    AllSlicesWindow(t, now);
    var c, s, n := CurrentSlice(t, now), AllSlices(t, now)[i], t.numberOfSlices;
    MulCancel(0, c.epoch + 1, t.ratePeriodMillis);
    assert s.epoch * n + s.index == c.epoch * n + c.index - i;
    assert (c.epoch - 1) * n == c.epoch * n - n;
    MulCancel(-1, s.epoch, n);
  }

  /**
   * The total `isLimited` reads right after `incrementCount(key, count)` at
   * the same time is the total before plus `count`.
   */
  lemma IncrementIsCounted(limiter: RateLimiter, keyedBuckets: BucketKeys, counters: map<string, Counter>, key: string, count: int, now: int)
    requires limiter.Valid() && keyedBuckets.Valid() && now >= 0
    ensures var keys := MemCacheKeys(keyedBuckets, key, now);
            var incremented := Incremented(counters, GetMemCacheKey(keyedBuckets, key, now), count, count, BucketExpiration(limiter));
            StoredSum(keys, incremented) == StoredSum(keys, counters) + count
  {
    var keys := MemCacheKeys(keyedBuckets, key, now);
    assert keys[0] in keys;
    IncrRaisesSum(keys, counters, GetMemCacheKey(keyedBuckets, key, now), count, BucketExpiration(limiter));
  }

  /**
   * Incrementing one key leaves the total every other key reads unchanged,
   * provided the reader's clock is past the first period (before that its
   * window reaches into epoch -1, whose names start with '-').
   */
  lemma IncrementLeavesOtherKeys(limiter: RateLimiter, keyedBuckets: BucketKeys, counters: map<string, Counter>, key: string, otherKey: string, count: int, now: int, otherNow: int)
    requires limiter.Valid() && keyedBuckets.Valid() && now >= 0 && otherKey != key
    requires otherNow >= keyedBuckets.timing.ratePeriodMillis
    ensures var keys := MemCacheKeys(keyedBuckets, otherKey, otherNow);
            var incremented := Incremented(counters, GetMemCacheKey(keyedBuckets, key, now), count, count, BucketExpiration(limiter));
            StoredSum(keys, incremented) == StoredSum(keys, counters)
  {
    var t := keyedBuckets.timing;
    var keys := MemCacheKeys(keyedBuckets, otherKey, otherNow);
    var name := GetMemCacheKey(keyedBuckets, key, now);
    if name in keys {
      var i :| 0 <= i < |keys| && keys[i] == name;
      WindowEpochs(t, otherNow, i);
      WalkNamesAt(t, CurrentSlice(t, otherNow), t.numberOfSlices);
      var s, c := AllSlices(t, otherNow)[i], CurrentSlice(t, now);
      assert keys[i] == GetMemCacheKeyFor(otherKey, SliceName(s));
      assert name == GetMemCacheKeyFor(key, SliceName(c));
      NameWithoutDash(s);
      NameWithoutDash(c);
      MemCacheKeySplit(otherKey, key, SliceName(s), SliceName(c));
      assert false;
    }
    IncrRaisesSum(keys, counters, name, count, BucketExpiration(limiter));
  }

  /**
   * The loop of `isLimited` that turns each bucket name of the array into
   * the counter name of `key`, in place and in the same order.
   */
  method PrefixKeys(key: string, keys: array<string>)
    modifies keys
    ensures |keys[..]| == |old(keys[..])|
    ensures forall k :: 0 <= k < keys.Length ==> keys[k] == GetMemCacheKeyFor(key, old(keys[k]))
  {
    for i := 0 to keys.Length
      invariant forall k :: 0 <= k < i ==> keys[k] == GetMemCacheKeyFor(key, old(keys[k]))
      invariant forall k :: i <= k < keys.Length ==> keys[k] == old(keys[k])
    {
      keys[i] := GetMemCacheKeyFor(key, keys[i]);
    }
  }

  /** RateLimiterMemcached: the base configuration, its own bucket key generator and the client. */
  class RateLimiterMemcached {
    const limiter: RateLimiter
    const keyedBuckets: BucketKeys
    const client: CounterStore

    /** The key generator runs on the limiter's own rate count and timing. */
    predicate Valid() {
      && limiter.Valid()
      && keyedBuckets.Valid()
      && keyedBuckets.timing == limiter.sliceNamer.timing
      && keyedBuckets.rateCount == limiter.rateLimit
    }

    /** The constructor: the base configuration and a BucketKeys on the same numbers; the connection is not modelled. */
    constructor (rateCount: int, ratePeriodSeconds: int, numberOfBuckets: int, client: CounterStore)
      requires 1 <= numberOfBuckets <= ratePeriodSeconds
      ensures Valid()
      ensures limiter == NewRateLimiter(rateCount, ratePeriodSeconds, numberOfBuckets)
      ensures keyedBuckets == NewBucketKeys(rateCount, ratePeriodSeconds, numberOfBuckets)
      ensures this.client == client
    {
      limiter := NewRateLimiter(rateCount, ratePeriodSeconds, numberOfBuckets);
      keyedBuckets := NewBucketKeys(rateCount, ratePeriodSeconds, numberOfBuckets);
      this.client := client;
    }

    /** `incrementCount(key, count)`: `incr` on the current bucket's counter, created holding `count` when absent. */
    method IncrementCount(key: string, count: int, now: int)
      requires Valid() && now >= 0
      modifies client
      ensures client.counters == Incremented(old(client.counters), GetMemCacheKey(keyedBuckets, key, now), count, count, BucketExpiration(limiter))
    {
      client.Incr(GetMemCacheKey(keyedBuckets, key, now), count, count, BucketExpiration(limiter));
    }

    /** `incrementCount(key)`: the base class's increment by one. */
    method IncrementCountByOne(key: string, now: int)
      requires Valid() && now >= 0
      modifies client
      ensures client.counters == Incremented(old(client.counters), GetMemCacheKey(keyedBuckets, key, now), 1, 1, BucketExpiration(limiter))
    {
      IncrementCount(key, 1, now);
    }

    /**
     * `isLimited(key, isUpdateCount, count)`: increments first when asked,
     * rewrites the window's bucket names into counter names in place, reads
     * them in one bulk request, adds up those found and answers whether the
     * total is strictly above the rate count.
     */
    method IsLimited(key: string, isUpdateCount: bool, count: int, now: int) returns (isOverCount: bool)
      requires Valid() && now >= 0
      modifies client
      ensures isUpdateCount ==> client.counters == Incremented(old(client.counters), GetMemCacheKey(keyedBuckets, key, now), count, count, BucketExpiration(limiter))
      ensures !isUpdateCount ==> client.counters == old(client.counters)
      ensures isOverCount <==> StoredSum(MemCacheKeys(keyedBuckets, key, now), client.counters) > limiter.rateLimit
    {
      if isUpdateCount {
        IncrementCount(key, count, now);
      }
      var keys := keyedBuckets.GetAllBucketKeys(now);
      PrefixKeys(key, keys);
      assert keys[..] == MemCacheKeys(keyedBuckets, key, now);
      var buckets := client.GetBulk(keys[..]);
      var bucketSum := 0;
      for i := 0 to keys.Length
        invariant bucketSum == FoundSum(keys[..i], buckets)
      {
        assert keys[..i + 1][..i] == keys[..i];
        if keys[i] in buckets {
          bucketSum := bucketSum + buckets[keys[i]];
        }
      }
      assert keys[..keys.Length] == keys[..];
      FoundSumIsStoredSum(keys[..], buckets, client.counters);
      isOverCount := bucketSum > limiter.rateLimit;
    }
  }
}
