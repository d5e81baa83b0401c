/**
 * RateLimiterLocalStore.java: an in-process limiter keeping one Buckets
 * window per key in a map, created on first use of the key and never
 * removed.
 */
module LocalStore {
  import opened LocalBuckets
  import opened RateLimiters

  /** Updating a map twice at one key keeps only the second value. */
  lemma UpdateTwice<K, V>(m: map<K, V>, k: K, a: V, b: V)
    ensures m[k := a][k := b] == m[k := b]
  {
  }

  class RateLimiterLocalStore {
    const limiter: RateLimiter
    var keyedBuckets: map<string, Buckets>
    /** Each key's window as a value: the abstract state of the map. */
    ghost var windows: map<string, Window>
    /** The Buckets objects of the map and their arrays. */
    ghost var Repr: set<object>

    /** The configuration is consistent and the map of windows keeps its invariant. */
    ghost predicate Valid()
      reads this, Repr
    {
      limiter.Valid() && Inv()
    }

    /**
     * Every window is valid, sits with its array inside Repr, is built from
     * the limiter's configuration and is the one `windows` records; distinct
     * keys own distinct windows and distinct arrays.
     */
    ghost predicate Inv()
      reads this, Repr
    {
      && this !in Repr
      && limiter.numberOfSlices >= 1
      && limiter.sliceSizeMillis > 0
      && Holds(keyedBuckets, windows, Repr, {})
    }

    /**
     * The map `kb` and the windows `ws` agree, as Inv states, on every key
     * outside `pending` (whose Buckets is being updated); the Buckets
     * objects of distinct keys are distinct.
     */
    ghost predicate Holds(kb: map<string, Buckets>, ws: map<string, Window>, repr: set<object>, pending: set<string>)
      reads repr
    {
      && kb.Keys == ws.Keys
      && (forall k :: k in kb ==> kb[k] in repr)
      && (forall k :: k in kb && k !in pending ==>
            && kb[k].bucket in repr
            && Tracks(kb[k], ws[k]))
      && (forall k1, k2 :: k1 in kb && k2 in kb && k1 != k2 ==> kb[k1] != kb[k2])
      && (forall k1, k2 :: k1 in kb && k2 in kb && k1 != k2 && k1 !in pending && k2 !in pending ==>
            kb[k1].bucket != kb[k2].bucket)
    }

    /** Inv for every key but `key`, whose Buckets may have just changed. */
    ghost predicate InvExcept(key: string)
      reads this, Repr
    {
      && this !in Repr
      && limiter.numberOfSlices >= 1
      && limiter.sliceSizeMillis > 0
      && Holds(keyedBuckets, windows, Repr, {key})
    }

    /** A valid Buckets built on the limiter's slice count, slice size and rate limit. */
    ghost predicate Conforms(b: Buckets)
      reads b, b.bucket
    {
      && b.Valid()
      && b.numberOfBuckets == limiter.numberOfSlices
      && b.WidthMillis() == limiter.sliceSizeMillis
      && b.rateCount == limiter.rateLimit
    }

    /** A conforming Buckets whose fields hold the window `w`. */
    ghost predicate Tracks(b: Buckets, w: Window)
      reads b, b.bucket
    {
      Conforms(b) && b.State() == w
    }

    /** The window a key has before an operation: its own, or a new one. */
    ghost function WindowOf(key: string): (w: Window)
      reads this, Repr
      requires Valid()
      ensures |w.slots| == limiter.numberOfSlices && WellFormed(w, |w.slots|)
    {
      if key in windows then windows[key] else Initial(limiter.numberOfSlices)
    }

    /** The constructor: the base configuration and an empty map. */
    constructor (rateCount: int, ratePeriodSeconds: int, numberOfBuckets: int)
      requires 1 <= numberOfBuckets <= ratePeriodSeconds
      ensures Valid() && fresh(Repr)
      ensures limiter == NewRateLimiter(rateCount, ratePeriodSeconds, numberOfBuckets)
      ensures keyedBuckets == map[] && windows == map[]
    {
      limiter := NewRateLimiter(rateCount, ratePeriodSeconds, numberOfBuckets);
      keyedBuckets := map[];
      windows := map[];
      Repr := {};
    }

    /** A new Buckets for an unseen key, on the limiter's rate limit, period and slice count. */
    method NewBuckets() returns (buckets: Buckets)
      requires limiter.Valid()
      ensures fresh(buckets) && fresh(buckets.bucket) && buckets.Valid()
      ensures buckets.State() == Initial(limiter.numberOfSlices)
      ensures buckets.numberOfBuckets == limiter.numberOfSlices
      ensures buckets.WidthMillis() == limiter.sliceSizeMillis
      ensures buckets.rateCount == limiter.rateLimit
    {
      buckets := new Buckets(limiter.rateLimit, limiter.ratePeriodMillis / 1000, limiter.numberOfSlices);
    }

    /** `put(key, buckets)` for an unseen key and a new Buckets built from the configuration. */
    method Adopt(key: string, buckets: Buckets)
      requires Inv() && key !in keyedBuckets
      requires buckets !in Repr && buckets.bucket !in Repr && buckets.Valid()
      requires buckets.numberOfBuckets == limiter.numberOfSlices
      requires buckets.WidthMillis() == limiter.sliceSizeMillis
      requires buckets.rateCount == limiter.rateLimit
      modifies this
      ensures Inv() && Repr == old(Repr) + {buckets, buckets.bucket}
      ensures keyedBuckets == old(keyedBuckets)[key := buckets]
      ensures windows == old(windows)[key := buckets.State()]
    {
      keyedBuckets := keyedBuckets[key := buckets];
      windows := windows[key := buckets.State()];
      Repr := Repr + {buckets, buckets.bucket};
    }

    /**
     * The get-or-create both operations start with: the key's Buckets, a
     * new one built from the configuration when the key is unseen. Only
     * the map and Repr change.
     */
    method BucketsFor(key: string) returns (buckets: Buckets)
      requires Valid()
      modifies this
      ensures Valid() && fresh(Repr - old(Repr))
      ensures keyedBuckets.Keys == old(keyedBuckets).Keys + {key}
      ensures windows == old(windows)[key := old(WindowOf(key))]
      ensures forall k :: k in old(keyedBuckets) ==> keyedBuckets[k] == old(keyedBuckets)[k]
      ensures key in keyedBuckets && buckets == keyedBuckets[key]
      ensures key !in old(keyedBuckets) ==> fresh(buckets)
    {
      if key in keyedBuckets {
        buckets := keyedBuckets[key];
      } else {
        buckets := NewBuckets();
        Adopt(key, buckets);
      }
    }

    /** The second half of `incrementCount`: the key's own Buckets takes the increment. */
    method IncrementKept(key: string, buckets: Buckets, count: int, now: int)
      requires Inv() && key in keyedBuckets && buckets == keyedBuckets[key]
      modifies this, Repr
      ensures Inv() && fresh(Repr - old(Repr))
      ensures keyedBuckets == old(keyedBuckets)
      ensures windows == old(windows)[key := Increment(old(windows[key]), count, now, limiter.sliceSizeMillis)]
    {
      buckets.IncrementCount(count, now);
      Record(key, buckets);
    }

    /**
     * Once `key`'s Buckets is valid again and its array is its own, recording
     * its window and its array restores the invariant.
     */
    lemma Resync(kb: map<string, Buckets>, ws: map<string, Window>, repr: set<object>, key: string, buckets: Buckets)
      requires Holds(kb, ws, repr, {key}) && key in kb && buckets == kb[key] && Conforms(buckets)
      requires forall k :: k in kb && k != key ==> kb[k].bucket != buckets.bucket
      ensures Holds(kb, ws[key := buckets.State()], repr + {buckets.bucket}, {})
    {
    }

    /** Records the new window of `key` and its (possibly new) array, restoring Inv. */
    ghost method Record(key: string, buckets: Buckets)
      requires InvExcept(key) && key in keyedBuckets && buckets == keyedBuckets[key] && Conforms(buckets)
      requires forall k :: k in keyedBuckets && k != key ==> keyedBuckets[k].bucket != buckets.bucket
      modifies this
      ensures Inv() && Repr == old(Repr) + {buckets.bucket}
      ensures keyedBuckets == old(keyedBuckets)
      ensures windows == old(windows)[key := buckets.State()]
    {
      Resync(keyedBuckets, windows, Repr, key, buckets);
      windows, Repr := windows[key := buckets.State()], Repr + {buckets.bucket};
    }

    /** The second half of `isLimited`: the key's own Buckets answers. */
    method IsLimitedKept(key: string, buckets: Buckets, isUpdateCount: bool, count: int, now: int) returns (isLimited: bool)
      requires Inv() && key in keyedBuckets && buckets == keyedBuckets[key]
      modifies this, Repr
      ensures Inv() && fresh(Repr - old(Repr))
      ensures keyedBuckets == old(keyedBuckets)
      ensures windows == old(windows)[key := Checked(old(windows[key]), isUpdateCount, count, now, limiter.sliceSizeMillis)]
      ensures isLimited <==> Sum(windows[key].slots) > limiter.rateLimit
    {
      isLimited := buckets.IsLimited(isUpdateCount, count, now);
      Record(key, buckets);
    }

    /**
     * `incrementCount(key, count)`: the key's window (a new one if the key
     * is unseen) takes the increment; every other key keeps its Buckets
     * object and its window, and no key is removed.
     */
    method IncrementCount(key: string, count: int, now: int)
      requires Valid()
      modifies this, Repr
      ensures Valid() && fresh(Repr - old(Repr))
      ensures keyedBuckets.Keys == old(keyedBuckets).Keys + {key}
      ensures forall k :: k in old(keyedBuckets) ==> keyedBuckets[k] == old(keyedBuckets)[k]
      ensures windows == old(windows)[key := Increment(old(WindowOf(key)), count, now, limiter.sliceSizeMillis)]
    {
      ghost var before, initial := WindowOf(key), windows;
      var buckets := BucketsFor(key);
      ghost var created := windows;
      assert created[key] == before;
      IncrementKept(key, buckets, count, now);
      UpdateTwice(initial, key, before, windows[key]);
    }

    /** `incrementCount(key)`: an increment by one. */
    method IncrementCountByOne(key: string, now: int)
      requires Valid()
      modifies this, Repr
      ensures Valid() && fresh(Repr - old(Repr))
      ensures keyedBuckets.Keys == old(keyedBuckets).Keys + {key}
      ensures forall k :: k in old(keyedBuckets) ==> keyedBuckets[k] == old(keyedBuckets)[k]
      ensures windows == old(windows)[key := Increment(old(WindowOf(key)), 1, now, limiter.sliceSizeMillis)]
    {
      IncrementCount(key, 1, now);
    }

    /**
     * `isLimited(key, isUpdateCount, count)`: the key gets a window even when
     * nothing is counted; the answer is that window's own `isLimited`, so the
     * total of its slots strictly above the rate count.
     */
    method IsLimited(key: string, isUpdateCount: bool, count: int, now: int) returns (isLimited: bool)
      requires Valid()
      modifies this, Repr
      ensures Valid() && fresh(Repr - old(Repr))
      ensures keyedBuckets.Keys == old(keyedBuckets).Keys + {key}
      ensures forall k :: k in old(keyedBuckets) ==> keyedBuckets[k] == old(keyedBuckets)[k]
      ensures windows == old(windows)[key := Checked(old(WindowOf(key)), isUpdateCount, count, now, limiter.sliceSizeMillis)]
      ensures isLimited <==> Sum(windows[key].slots) > limiter.rateLimit
    {
      ghost var before, initial := WindowOf(key), windows;
      var buckets := BucketsFor(key);
      ghost var created := windows;
      assert created[key] == before;
      isLimited := IsLimitedKept(key, buckets, isUpdateCount, count, now);
      UpdateTwice(initial, key, before, windows[key]);
    }
  }
}
