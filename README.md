# RateLimiter in Dafny

A model of the Java rate limiter library `com.bruceslawson.ratelimiter`.
The model covers its in-process limiter and its two memcached-backed
limiters, with proofs about them.

The library's limiters are meant to answer one question: has a key been
used more than `rateLimit` times in the rolling rate period? Each keeps a
sliding window of N slices. The memcached limiters read the N slice names the
namer walks back from `now`; these are not always the last N slices (see
Findings). The in-process limiter reads
the N buckets ending at the bucket of its last increment, which is not
`now`'s bucket when the check does not count (see Findings).

- `Buckets` keeps one key's window in memory. It is an array of N bucket
  counts with a cursor on the current bucket. The array is rotated lazily on
  each increment: the cursor moves forward, or the slots shift left and the
  vacated slots are zeroed.
- `RateLimiterLocalStore` keeps one `Buckets` per key in a map. An unseen key
  gets a new `Buckets`.
- `RateLimiterMemcache` keeps one memcached counter per (key, slice), named
  `key + "~_~" + "<epoch>_<index>"`. `RateLimiterMemcached` is the earlier
  revision of it; it names counters `key + "-" + "<epoch>_<index>"`. Both
  increment the current slice's counter and add up a bulk read of the
  window's N counters.
- `SliceNamer`, `TimeSliceNamer` and `BucketKeys` turn the clock into slice
  names and list the window's names, most recent first. They are three
  revisions of the same class.

The modules follow the Java classes:

| module | file | models |
|---|---|---|
| `SliceClock` | slice_clock.dfy | the arithmetic the three namers share: slice identity, walk back, names and their parsing |
| `Decimal`, `Wrappers` | decimal.dfy | Java's decimal rendering of a `long`, and a parser used only to state round trips |
| `SliceNamers`, `TimeSliceNamers`, `BucketKeyNamers` | slice_namer.dfy, time_slice_namer.dfy, bucket_keys.dfy | `SliceNamer`, `TimeSliceNamer`, `BucketKeys` |
| `RateLimiters` | rate_limiter.dfy | the `RateLimiter` base class: configuration and `getSliceKey` |
| `LocalBuckets` | buckets.dfy | `Buckets`: specification functions on a `Window` value, and the class over an `array<int>` proved against them |
| `BucketHistory` | bucket_history.dfy | what a `Buckets` counts after any history of increments |
| `LocalStore` | local_store.dfy | `RateLimiterLocalStore` |
| `Counters` | counter_store.dfy | the memcached client's `incr` and `getBulk`, as a class over a map of counters |
| `MemcacheLimiters`, `MemcachedLimiters` | memcache.dfy, memcached.dfy | `RateLimiterMemcache`, `RateLimiterMemcached` |
| `SliceAlignment` | slice_alignment.dfy | how the namers' window relates to the slices counted into (see Findings) |
| `Arithmetic` | arithmetic.dfy | division and multiplication facts used by the proofs |

The wall clock (`System.currentTimeMillis()`) is a parameter `now` of every
operation that reads it. The memcached server is the `Counters.CounterStore`
object passed to a limiter's constructor.

## Model

| member | source | states |
|---|---|---|
| SliceClock.FromSeconds | src/com/bruceslawson/ratelimiter/SliceNamer.java:13-18 | the period in milliseconds is seconds × 1000; the slice size is a whole number of seconds, the largest such that N slices fit in the period |
| SliceClock.CurrentSlice | src/com/bruceslawson/ratelimiter/SliceNamer.java:21-24 | the index lies in [0, N); the epoch is the number of whole periods before `now` |
| SliceClock.SliceNameRoundTrip | src/com/bruceslawson/ratelimiter/SliceNamer.java:25 | splitting a name `"<epoch>_<index>"` at its `_` gives back the epoch and the index |
| SliceClock.SliceNameChars | src/com/bruceslawson/ratelimiter/SliceNamer.java:25 | a slice name holds only digits, `-` and `_`, so never `~` |
| SliceClock.SliceNameInjective | src/com/bruceslawson/ratelimiter/SliceNamer.java:25 | distinct slices have distinct names |
| SliceClock.WalkOrdinals | src/com/bruceslawson/ratelimiter/SliceNamer.java:42-58 | each step back is the predecessor (index down by one, wrapping from 0 to N-1 into the previous epoch); indexes stay in [0, N); positions on the slice time line fall by exactly one per step |
| SliceClock.WalkNamesAt | src/com/bruceslawson/ratelimiter/SliceNamer.java:42-43 | the names listed are the names of the walked slices, position by position |
| SliceClock.AllSlicesWindow | src/com/bruceslawson/ratelimiter/SliceNamer.java:35-58 | the window holds N slices; the first is the current one, each next one is the predecessor of the one before, and no two are equal |
| SliceClock.AllSliceNamesWindow | src/com/bruceslawson/ratelimiter/SliceNamer.java:35-64 | N names; the first is the current slice's name, each parses back to its slice, and no two are equal |
| Decimal.NatToString | src/com/bruceslawson/ratelimiter/SliceNamer.java:25 | a non-negative `long` renders as one or more decimal digits with no leading zero |
| Decimal.NatRoundTrip | src/com/bruceslawson/ratelimiter/SliceNamer.java:25 | the decimal digits of a non-negative `long` read back to the number |
| Decimal.IntRoundTrip | src/com/bruceslawson/ratelimiter/SliceNamer.java:25 | the decimal rendering of any `long`, with a leading `-` when negative, reads back to the number |
| Decimal.IntToStringInjective | src/com/bruceslawson/ratelimiter/SliceNamer.java:25 | distinct numbers render differently |
| SliceNamers.NewSliceNamer | src/com/bruceslawson/ratelimiter/SliceNamer.java:13-18 | the constructor stores the period in milliseconds, N and the truncated slice size: a multiple of 1000 with N × size ≤ period < N × (size + 1000) |
| SliceNamers.SliceNamer.CurrentSliceName | src/com/bruceslawson/ratelimiter/SliceNamer.java:21-32 | the name parses back to the slice containing `now` |
| SliceNamers.SliceNamer.GetAllSliceNames | src/com/bruceslawson/ratelimiter/SliceNamer.java:35-65 | the loop fills a new array with exactly the window's names, most recent first |
| TimeSliceNamers.NewTimeSliceNamer | src/com/bruceslawson/ratelimiter/TimeSliceNamer.java:13-18 | as `NewSliceNamer` |
| TimeSliceNamers.TimeSliceNamer.CurrentSliceName | src/com/bruceslawson/ratelimiter/TimeSliceNamer.java:21-32 | the name parses back to the slice containing `now` |
| TimeSliceNamers.TimeSliceNamer.GetAllSliceNames | src/com/bruceslawson/ratelimiter/TimeSliceNamer.java:35-64 | a new array holding exactly the window's names, most recent first |
| BucketKeyNamers.NewBucketKeys | src/com/bruceslawson/ratelimiter/BucketKeys.java:10-23 | as `NewSliceNamer`, also keeping the rate count |
| BucketKeyNamers.BucketKeys.GetCurrentBucketKey | src/com/bruceslawson/ratelimiter/BucketKeys.java:26-37 | the key parses back to the slice containing `now` |
| BucketKeyNamers.BucketKeys.GetAllBucketKeys | src/com/bruceslawson/ratelimiter/BucketKeys.java:40-70 | a new array holding exactly the window's names, most recent first |
| RateLimiters.NewRateLimiter | src/com/bruceslawson/ratelimiter/RateLimiter.java:24-31 | the stored limit, N, period in milliseconds and truncated slice size, and a namer running on those same numbers |
| RateLimiters.RateLimiter.GetSliceKey | src/com/bruceslawson/ratelimiter/RateLimiter.java:88-90 | the key is the category name, then `~_~`, then a name that parses back to the slice containing `now` |
| RateLimiters.SliceKeyInjective | src/com/bruceslawson/ratelimiter/RateLimiter.java:88-90 | equal slice keys come from the same category name and the same slice |
| RateLimiters.SeparatedSuffix | src/com/bruceslawson/ratelimiter/RateLimiter.java:89 | `c + "~_~" + name` splits uniquely when the name is a slice name |
| LocalBuckets.Rotate | src/com/bruceslawson/ratelimiter/Buckets.java:34-82 | rotating keeps the window well formed (N slots, slots right of the cursor zero) and leaves the cursor on a slot |
| LocalBuckets.Increment | src/com/bruceslawson/ratelimiter/Buckets.java:34-91 | an increment keeps the window well formed and leaves the cursor on a slot |
| LocalBuckets.Checked | src/com/bruceslawson/ratelimiter/Buckets.java:107-111 | the window after `isLimited` stays well formed |
| LocalBuckets.FirstIncrement | src/com/bruceslawson/ratelimiter/Buckets.java:35-37 | the first increment starts the window at `now`, with `count` in slot 0 and zeros elsewhere |
| LocalBuckets.SameBucket | src/com/bruceslawson/ratelimiter/Buckets.java:42-43 | inside the current bucket, only the current slot changes, by exactly `count` |
| LocalBuckets.AdvanceCursor | src/com/bruceslawson/ratelimiter/Buckets.java:76-81 | a skip that stays inside the array moves the cursor by the skip, puts `count` in the new slot and moves the start by whole buckets |
| LocalBuckets.ShiftBuckets | src/com/bruceslawson/ratelimiter/Buckets.java:51-75 | a skip past the end of fewer than N buckets moves the slots from cursor+skip-N+1 to the front, zeroes the rest, puts the cursor on the last slot and `count` in it; every index stays in range |
| LocalBuckets.ResetBuckets | src/com/bruceslawson/ratelimiter/Buckets.java:57-75 | a skip of N buckets or more leaves only the last slot non-zero, holding `count` |
| LocalBuckets.IncrementAligns | src/com/bruceslawson/ratelimiter/Buckets.java:42-81 | after an increment, `now` lies in the current bucket |
| LocalBuckets.IncrementSum | src/com/bruceslawson/ratelimiter/Buckets.java:34-91 | the new total is the old total, less the oldest slots the shift drops, plus `count` |
| LocalBuckets.Buckets.constructor | src/com/bruceslawson/ratelimiter/Buckets.java:9-19 | the bucket size is period / N in whole seconds; all N buckets are zero; the window is not started |
| LocalBuckets.Buckets.IncrementCount | src/com/bruceslawson/ratelimiter/Buckets.java:34-91 | the new fields are `Increment` of the old ones; the array is the same or a new one |
| LocalBuckets.Buckets.NewShiftedBucket | src/com/bruceslawson/ratelimiter/Buckets.java:57-69 | the new array is the old one shifted left by cursor+skip-N+1 with zeros behind, or all zeros when N or more buckets are skipped |
| LocalBuckets.Buckets.IncrementCountByOne | src/com/bruceslawson/ratelimiter/Buckets.java:30-32 | the increment by one |
| LocalBuckets.Buckets.IsLimited | src/com/bruceslawson/ratelimiter/Buckets.java:107-131 | the fields are incremented only when asked; the answer is true exactly when the sum of the buckets is strictly above the rate count |
| LocalBuckets.Buckets.IsLimitedOne | src/com/bruceslawson/ratelimiter/Buckets.java:95-97 | counts one, then answers as `IsLimited` |
| LocalBuckets.Buckets.IsLimitedCounting | src/com/bruceslawson/ratelimiter/Buckets.java:99-101 | counts `count`, then answers as `IsLimited` |
| LocalBuckets.Buckets.IsLimitedUpdating | src/com/bruceslawson/ratelimiter/Buckets.java:103-105 | optionally counts one, then answers as `IsLimited` |
| BucketHistory.BucketBounds | src/com/bruceslawson/ratelimiter/Buckets.java:42 | a clock reading lies in its bucket, a whole number of widths after the first call |
| BucketHistory.SkipDistance | src/com/bruceslawson/ratelimiter/Buckets.java:42-81 | for a later reading, Java's skip count is the distance between the two buckets |
| BucketHistory.ReplayCounts | src/com/bruceslawson/ratelimiter/Buckets.java:34-91 | after any chronological history, slot j holds the total of the calls in bucket c - cursor + j, where c is the last call's bucket |
| BucketHistory.ReplayTotal | src/com/bruceslawson/ratelimiter/Buckets.java:107-128 | after any chronological history, the slots add up to the calls in the last call's bucket and the N-1 buckets before it |
| BucketHistory.ReplayClock | src/com/bruceslawson/ratelimiter/Buckets.java:81 | the last call's reading lies in the current bucket |
| BucketHistory.ReplaySum | src/com/bruceslawson/ratelimiter/Buckets.java:107-128 | both of the above together: what `isLimited` compares with the rate count is the total of the N buckets ending at the last increment's bucket |
| BucketHistory.StaleReadOnlyCheck | src/com/bruceslawson/ratelimiter/Buckets.java:107-128 | as written, a check that does not count leaves the window alone: 7 calls at 0 ms on 5 buckets of 60 s are still summed at 301 s, though none lies in the 5 buckets ending at 301 s |
| LocalBuckets.Aged | src/com/bruceslawson/ratelimiter/Buckets.java:42-82 | corrected read-only step: a started window rotated to `now`, which is an increment by zero; an unstarted window unchanged |
| BucketHistory.AgedSum | src/com/bruceslawson/ratelimiter/RateLimiter.java:19 | with the corrected read-only step, the total read at `now` (not before the last call) is the total of the calls in `now`'s bucket and the N-1 before it |
| LocalStore.RateLimiterLocalStore.constructor | src/com/bruceslawson/ratelimiter/RateLimiterLocalStore.java:12-16 | the base configuration and an empty map |
| LocalStore.RateLimiterLocalStore.NewBuckets | src/com/bruceslawson/ratelimiter/RateLimiterLocalStore.java:26 | a new `Buckets` on the limiter's slice count, slice size and rate count |
| LocalStore.RateLimiterLocalStore.Adopt | src/com/bruceslawson/ratelimiter/RateLimiterLocalStore.java:27 | `put` of a new `Buckets` under an unseen key: the map and the recorded windows gain exactly that entry, and the invariant holds again |
| LocalStore.RateLimiterLocalStore.IncrementKept | src/com/bruceslawson/ratelimiter/RateLimiterLocalStore.java:30 | the key's own `Buckets` takes the increment; the map is unchanged and only that key's window changes |
| LocalStore.RateLimiterLocalStore.IsLimitedKept | src/com/bruceslawson/ratelimiter/RateLimiterLocalStore.java:42 | the key's own `Buckets` answers: its window becomes `Checked` of the old one and the answer is its total strictly above the rate count |
| LocalStore.RateLimiterLocalStore.BucketsFor | src/com/bruceslawson/ratelimiter/RateLimiterLocalStore.java:24-28 | the key's `Buckets`, or a new one put in the map; every other entry is unchanged |
| LocalStore.RateLimiterLocalStore.IncrementCount | src/com/bruceslawson/ratelimiter/RateLimiterLocalStore.java:19-31 | the key's window (new if unseen) takes the increment; every other key keeps its `Buckets` and its window; no key is removed |
| LocalStore.RateLimiterLocalStore.IncrementCountByOne | src/com/bruceslawson/ratelimiter/RateLimiter.java:48-50 | the increment by one |
| LocalStore.RateLimiterLocalStore.IsLimited | src/com/bruceslawson/ratelimiter/RateLimiterLocalStore.java:34-49 | the key gets a window even when nothing is counted; the answer is true exactly when that window's total is strictly above the rate count; other keys are unchanged |
| Counters.Incremented | src/com/bruceslawson/ratelimiter/RateLimiterMemcache.java:62 | `incr`: an absent counter is created holding the initial value with the expiry; a present one gains `delta` and keeps its expiry; no other counter changes |
| Counters.IncrAddsToLookup | src/com/bruceslawson/ratelimiter/RateLimiterMemcache.java:62 | with initial equal to delta, as both limiters call it, `incr` adds delta whether or not the counter existed |
| Counters.IncrRaisesSum | src/com/bruceslawson/ratelimiter/RateLimiterMemcache.java:62 | over distinct names, one `incr` raises the total by delta when the counter is listed, and leaves it unchanged otherwise |
| Counters.FoundSumIsStoredSum | src/com/bruceslawson/ratelimiter/RateLimiterMemcache.java:84-98 | adding up a bulk read, skipping names not found, gives the stored total with absent counters read as zero |
| Counters.CounterStore.Incr | src/com/bruceslawson/ratelimiter/RateLimiterMemcache.java:62 | the store's counters become `Incremented` of the old ones |
| Counters.CounterStore.GetBulk | src/com/bruceslawson/ratelimiter/RateLimiterMemcache.java:84 | the result holds exactly the requested names that are stored, with their values |
| MemcacheLimiters.SliceExpiration | src/com/bruceslawson/ratelimiter/RateLimiterMemcache.java:132-135 | the expiry is the period plus 600 seconds |
| MemcacheLimiters.GetSliceNames | src/com/bruceslawson/ratelimiter/RateLimiterMemcache.java:81 | N counter names, the first the current slice's key, no two alike |
| MemcacheLimiters.SliceNameAt | src/com/bruceslawson/ratelimiter/RateLimiterMemcache.java:81 | name i is the limiter key, `~_~` and the name of slice i of the window |
| MemcacheLimiters.SliceNamesOwnKey | src/com/bruceslawson/ratelimiter/RateLimiterMemcache.java:81 | no other limiter key's current slice key, at any time, is among the names read |
| MemcacheLimiters.IncrementIsCounted | src/com/bruceslawson/ratelimiter/RateLimiterMemcache.java:61-63 | right after an increment by `count`, the total read at the same time is the old total plus `count` |
| MemcacheLimiters.IncrementLeavesOtherKeys | src/com/bruceslawson/ratelimiter/RateLimiterMemcache.java:61-63 | an increment of one key leaves the total read for every other key unchanged |
| MemcacheLimiters.RateLimiterMemcache.constructor | src/com/bruceslawson/ratelimiter/RateLimiterMemcache.java:40-41 | the base configuration and the client |
| MemcacheLimiters.RateLimiterMemcache.IncrementCount | src/com/bruceslawson/ratelimiter/RateLimiterMemcache.java:61-63 | `incr` of the current slice's key by `count`, initial `count`, with the slice expiry |
| MemcacheLimiters.RateLimiterMemcache.IncrementCountByOne | src/com/bruceslawson/ratelimiter/RateLimiter.java:48-50 | the increment by one |
| MemcacheLimiters.RateLimiterMemcache.IsLimited | src/com/bruceslawson/ratelimiter/RateLimiterMemcache.java:75-112 | increments unless `count` is 0; true exactly when the stored total of the window's counters is strictly above the limit |
| MemcacheLimiters.RateLimiterMemcache.IsLimitedWithoutCount | src/com/bruceslawson/ratelimiter/RateLimiter.java:68-70 | changes no counter; true exactly when the window's total is strictly above the limit |
| MemcachedLimiters.BucketExpiration | src/com/bruceslawson/ratelimiter/RateLimiterMemcached.java:194-197 | the expiry is the period plus 600 seconds |
| MemcachedLimiters.GetMemCacheKeyFor | src/com/bruceslawson/ratelimiter/RateLimiterMemcached.java:189-191 | the counter name is the key, one `-`, then the bucket name; `MemCacheKeySplit` shows it splits back |
| MemcachedLimiters.GetMemCacheKey | src/com/bruceslawson/ratelimiter/RateLimiterMemcached.java:183-185 | the name is the key, `-`, then a name that parses back to the slice containing `now` |
| MemcachedLimiters.MemCacheKeys | src/com/bruceslawson/ratelimiter/RateLimiterMemcached.java:128-131 | N counter names, the first the current bucket's, no two alike |
| MemcachedLimiters.NameWithoutDash | src/com/bruceslawson/ratelimiter/RateLimiterMemcached.java:189-191 | a slice name of a non-negative epoch holds no `-` |
| MemcachedLimiters.MemCacheKeySplit | src/com/bruceslawson/ratelimiter/RateLimiterMemcached.java:189-191 | with `-`-free bucket names, equal counter names come from the same key and bucket |
| MemcachedLimiters.WindowEpochs | src/com/bruceslawson/ratelimiter/BucketKeys.java:40-61 | once the clock is past the first period, every slice of the window has a non-negative epoch |
| MemcachedLimiters.IncrementIsCounted | src/com/bruceslawson/ratelimiter/RateLimiterMemcached.java:107-109 | right after an increment by `count`, the total read at the same time is the old total plus `count` |
| MemcachedLimiters.IncrementLeavesOtherKeys | src/com/bruceslawson/ratelimiter/RateLimiterMemcached.java:107-109 | an increment of one key leaves the total read for every other key unchanged, once the reader is past the first period |
| MemcachedLimiters.PrefixKeys | src/com/bruceslawson/ratelimiter/RateLimiterMemcached.java:129-131 | the array is rewritten in place, each bucket name becoming `key + "-" + name`, in the same order |
| MemcachedLimiters.RateLimiterMemcached.constructor | src/com/bruceslawson/ratelimiter/RateLimiterMemcached.java:83-87 | the base configuration, a `BucketKeys` on the same numbers, and the client |
| MemcachedLimiters.RateLimiterMemcached.IncrementCount | src/com/bruceslawson/ratelimiter/RateLimiterMemcached.java:107-109 | `incr` of the current bucket's name by `count`, initial `count`, with the bucket expiry |
| MemcachedLimiters.RateLimiterMemcached.IncrementCountByOne | src/com/bruceslawson/ratelimiter/RateLimiter.java:48-50 | the increment by one |
| MemcachedLimiters.RateLimiterMemcached.IsLimited | src/com/bruceslawson/ratelimiter/RateLimiterMemcached.java:121-162 | increments only when asked; true exactly when the stored total of the window's counters is strictly above the rate count |
| SliceAlignment.AlignedSlice | src/com/bruceslawson/ratelimiter/SliceNamer.java:23-24 | corrected current slice: index in [0, N), and its position on the slice time line is the number of whole slices before `now` |
| SliceAlignment.AlignedWindowHistory | src/com/bruceslawson/ratelimiter/SliceNamer.java:42-58 | with the corrected slice, window position i is the slice that was current i slices earlier, for every configuration |
| SliceAlignment.CurrentIsAlignedWhenDivisible | src/com/bruceslawson/ratelimiter/SliceNamer.java:23-24 | when the period is exactly N slices, the code's current slice is the corrected one |
| SliceAlignment.WindowHistoryWhenDivisible | src/com/bruceslawson/ratelimiter/SliceNamer.java:35-58 | when the period is exactly N slices, the code's window position i is the slice the code counted into i slices earlier |
| SliceAlignment.AboveWindow | src/com/bruceslawson/ratelimiter/SliceNamer.java:37-58 | no slice numbered above the current one is in the window |
| SliceAlignment.MisalignedWindow | src/com/bruceslawson/ratelimiter/SliceNamer.java:23-58 | with a 300 s period in 7 slices, the slice counted into at 257 s is not in the window read at 299 s |
| SliceAlignment.PreviousEpochWindow | src/com/bruceslawson/ratelimiter/SliceNamer.java:23-58 | same configuration: at 590 s the window holds slice 0_1, current at 42 s, and misses slice 1_2, current at 400 s |

## Left out

- Debug output (`isDebug`, `logger`, `DebugPrinter`) is not modelled; it has no effect on the results.
- Connecting to memcached, the default server address, `close` and `shutdown` are not modelled. The client is a `CounterStore` object passed in.
- Memcached expiry eviction is not modelled. The expiry passed to `incr` is recorded with each new counter, but no counter ever disappears.
- Network failures and `Long.parseLong` failures are not modelled. A stored counter is a number, so the value that `getBulk` returns always parses.
- Java's 32-bit `int` and 64-bit `long` wrap-around is not modelled. This covers the counts, the sums, the `(int)` expiry cast and `ratePeriodSeconds * 1000`. Integers are unbounded.
- Thread safety is not modelled. `HashMap` and the Buckets arrays are not synchronised in the source, and the model runs each call alone.
- Each operation reads one clock value `now`. In the Java code, `incrementCount` and the namer inside one `isLimited` call each call `System.currentTimeMillis()`, so their readings may differ by a few milliseconds. Every `now` is required to be non-negative.
- `RateLimiterMemcache` calls `getCurrentSliceName(limiterKey)` and `getSliceNames(limiterKey)`. The `RateLimiter` class of this revision does not define them. They are modelled as `getSliceKey(limiterKey)` and as the window's names, each prefixed with `limiterKey + "~_~"`.
- `RateLimiterLocalStore` and `RateLimiterMemcached` come from an earlier revision. They use base-class fields (`_rateCount`, `_numberOfBuckets`, `_ratePeriodMillis`, `_isDebug`) and an `isLimited(key, isUpdateCount, count)` signature. The fields are read from the embedded `RateLimiter` value.
- `RateLimiterLocalStore` and `RateLimiterMemcached` define only `isLimited(key, isUpdateCount, count)`, not the base class's abstract `isLimited(key, count)`. So the base class's `isLimited(key)` has no model for either of them.
- The base class is a value (`RateLimiters.RateLimiter`) embedded in each concrete limiter class, not a superclass. Its `incrementCount(key)` overload is repeated in each limiter class. Its `isLimited(key)` overload is repeated only in `RateLimiterMemcache` (`IsLimitedWithoutCount`), the one limiter that defines `isLimited(key, count)`.
- The limiter and namer constructors require `1 <= N <= ratePeriodSeconds`. For fewer seconds than slices, the Java slice size is 0 and the first `getCurrentSliceName` divides by zero.
- LocalBuckets.Buckets.IncrementCount requires `Steppable`: the bucket width must be positive once the window has started. With a width of 0, Java throws `ArithmeticException` from the second increment on, and the model does not describe that exception.
- MemcachedLimiters.IncrementLeavesOtherKeys requires the reader's clock to be past the first period. Before that, the window holds epoch -1, and names such as `"a" + "-" + "-1_6"` equal `"a-" + "-" + "1_6"`, so two keys can share a counter.
- The padding constants are 600 seconds, as the code says. The source comments beside them say "5 minutes".
- The limiters keep the as-written read-only check of `Buckets`. The corrected `LocalBuckets.Aged` is proved on its own (see Findings) but not wired into `Buckets` or `RateLimiterLocalStore`.
- The limiters keep the as-written slice naming. The corrected `SliceAlignment.AlignedSlice` is stated and proved on its own (see Findings). It is not wired into the limiters, so the limiters' contracts describe the code as it behaves.

## Findings

| source | as written | input that shows it | evidently intended | confidence | as-written member | corrected member |
|---|---|---|---|---|---|---|
| src/com/bruceslawson/ratelimiter/SliceNamer.java:23-58 | The current slice takes its epoch from `now / period` and its index from `(now / sliceSize) % N`. The walk back then treats every N slices as one epoch. When the period is not a whole number of slices, the two numberings disagree. The same code is in `TimeSliceNamer.java` and `BucketKeys.java`. | Period 300 s, 7 slices, so 42 s slices. At 257 000 ms the code counts into slice `0_6`. At 299 000 ms the window it reads is `0_0`, `-1_6` … `-1_1`, which misses that count, although it is 42 s old. | The window is the N slices before `now`, each the slice counted into i slices earlier | not executed | SliceAlignment.MisalignedWindow | SliceAlignment.AlignedWindowHistory |
| src/com/bruceslawson/ratelimiter/Buckets.java:107-111 | `isLimited(false, count)` sums the buckets without rotating the window to `now`. It answers from the window as the last increment left it, however long ago that was. `RateLimiterLocalStore.isLimited(key, false, count)` inherits this. | Limit 6, period 300 s, 5 buckets of 60 s. 7 calls at 0 ms, then `isLimited(false, 0)` at 301 000 ms. The 5 buckets ending at 301 s hold none of the calls, but the sum read is 7, so the answer is "limited". | The rate period is "the rolling period of time" (`RateLimiter.java:19`). A read-only check should first rotate to `now`, dropping the buckets that have fallen out, as the memcached limiters' windows do. | not executed | BucketHistory.StaleReadOnlyCheck | BucketHistory.AgedSum |

The misalignment is not confined to the end of the first period. `SliceAlignment.PreviousEpochWindow` shows that at 590 s, with the same configuration, the current slice is `1_0` and the rest of the window is `0_6` … `0_1`: the previous epoch's slices. The window reads slice `0_1`, whose calls are 506 to 548 s old. It misses slice `1_2`, which was current at 400 s. How long the window stays on the previous epoch's names varies from epoch to epoch; the model proves only these two instances.

`SliceAlignment.AlignedSlice` takes both the epoch and the index from the slice number (`slice / N`, `slice % N`). With it, `AlignedWindowHistory` holds for every configuration. `CurrentIsAlignedWhenDivisible` and `WindowHistoryWhenDivisible` show that the code as written already behaves this way when the period is exactly N slices.

`LocalBuckets.Aged` is the corrected read-only step for `Buckets`: a started window is rotated to `now` and nothing is added. `BucketHistory.AgedSum` proves that the total it reads at `now` is the total of the calls in `now`'s bucket and the N-1 buckets before it. `StaleReadOnlyCheck` also shows that `Aged` reads 0 on the example input.
