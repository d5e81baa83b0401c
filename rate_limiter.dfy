/**
 * RateLimiter.java: the configuration every limiter derives in its
 * constructor, the slice namer built from it, and the "~_~" slice keys.
 * The base class is a value here, embedded in each concrete limiter.
 */
module RateLimiters {
  import opened Wrappers
  import opened SliceClock
  import opened SliceNamers

  /** The separator between a category name and a slice name. */
  const SliceKeySeparator: string := "~_~"

  /** What the constructor stores. */
  datatype RateLimiter = RateLimiter(
    rateLimit: int,
    ratePeriodMillis: int,
    numberOfSlices: int,
    sliceSizeMillis: int,
    sliceNamer: SliceNamer)
  {
    /** The namer runs on the limiter's own period, slice count and slice size. */
    predicate Valid() {
      && sliceNamer.Valid()
      && sliceNamer.timing == Timing(ratePeriodMillis, numberOfSlices, sliceSizeMillis)
      && ratePeriodMillis % 1000 == 0
      && sliceSizeMillis == ((ratePeriodMillis / 1000) / numberOfSlices) * 1000
    }

    /**
     * `getSliceKey(categoryName)`: the category name, "~_~", and the name of
     * the slice containing `now`.
     */
    function GetSliceKey(categoryName: string, now: int): (key: string)
      requires Valid() && now >= 0
      ensures |key| > |categoryName| + |SliceKeySeparator|
      ensures key[..|categoryName|] == categoryName
      ensures key[|categoryName|..|categoryName| + |SliceKeySeparator|] == SliceKeySeparator
      ensures ParseSliceName(key[|categoryName| + |SliceKeySeparator|..]) == Some(CurrentSlice(sliceNamer.timing, now))
    {
      var name := sliceNamer.CurrentSliceName(now);
      var key := categoryName + SliceKeySeparator + name;
      assert key[|categoryName| + |SliceKeySeparator|..] == name;
      key
    }
  }

  /**
   * The constructor: the period in milliseconds, the slice size as whole
   * seconds of truncating division times 1000 (the largest such size that
   * fits numberOfSlices times in the period), and a namer on the same numbers.
   */
  function NewRateLimiter(rateLimit: int, ratePeriodSeconds: int, numberOfSlices: int): (r: RateLimiter)
    requires 1 <= numberOfSlices <= ratePeriodSeconds
    ensures r.Valid()
    ensures r.rateLimit == rateLimit && r.numberOfSlices == numberOfSlices
    ensures r.ratePeriodMillis == ratePeriodSeconds * 1000
    ensures r.sliceSizeMillis >= 1000
    ensures r.sliceSizeMillis * numberOfSlices <= r.ratePeriodMillis < (r.sliceSizeMillis + 1000) * numberOfSlices
  {
    var namer := NewSliceNamer(ratePeriodSeconds, numberOfSlices);
    RateLimiter(rateLimit, ratePeriodSeconds * 1000, numberOfSlices, (ratePeriodSeconds / numberOfSlices) * 1000, namer)
  }

  /**
   * A slice key determines both its category name and its slice: slice
   * names hold no '~', so the last "~_~" of a key is the separator.
   */
  lemma SliceKeyInjective(r: RateLimiter, c1: string, c2: string, now1: int, now2: int)
    requires r.Valid() && now1 >= 0 && now2 >= 0
    requires r.GetSliceKey(c1, now1) == r.GetSliceKey(c2, now2)
    ensures c1 == c2 && CurrentSlice(r.sliceNamer.timing, now1) == CurrentSlice(r.sliceNamer.timing, now2)
  {
    var t := r.sliceNamer.timing;
    var a, b := CurrentSlice(t, now1), CurrentSlice(t, now2);
    var n1, n2 := SliceName(a), SliceName(b);
    assert r.GetSliceKey(c1, now1) == c1 + SliceKeySeparator + r.sliceNamer.CurrentSliceName(now1);
    assert r.GetSliceKey(c2, now2) == c2 + SliceKeySeparator + r.sliceNamer.CurrentSliceName(now2);
    assert r.sliceNamer.CurrentSliceName(now1) == n1;
    assert r.sliceNamer.CurrentSliceName(now2) == n2;
    SeparatedSuffix(c1, c2, n1, n2, a, b);
    SliceNameInjective(a, b);
  }

  /** Two strings of the form `c + "~_~" + SliceName(id)` that are equal have equal parts. */
  lemma SeparatedSuffix(c1: string, c2: string, n1: string, n2: string, a: SliceId, b: SliceId)
    requires n1 == SliceName(a) && n2 == SliceName(b)
    requires c1 + SliceKeySeparator + n1 == c2 + SliceKeySeparator + n2
    ensures c1 == c2 && n1 == n2
  {
    SliceNameChars(a);
    SliceNameChars(b);
    var k := c1 + SliceKeySeparator + n1;
    // each key has a '~' just before its slice name, and neither slice name holds one,
    // so the two names have equal length
    assert k[|k| - |n1| - 1] == '~';
    assert k[|k| - |n2| - 1] == '~';
    assert |n1| == |n2|;
    assert n1 == k[|k| - |n1|..] == n2;
    assert c1 == k[..|c1|] == c2;
  }
}
