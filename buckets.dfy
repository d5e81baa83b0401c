/**
 * Buckets.java: the in-process sliding window of one key. The window is an
 * array of N bucket counts, a cursor on the current bucket (-1 before the
 * first increment) and the start time of the current bucket. Every
 * increment first rotates the window lazily to the bucket containing `now`.
 */
module LocalBuckets {

  /** The observable state of a Buckets object. */
  datatype Window = Window(slots: seq<int>, cursor: int, startMillis: int)

  function Zeros(n: nat): (s: seq<int>)
    ensures |s| == n && forall i :: 0 <= i < n ==> s[i] == 0
  {
    seq(n, _ => 0)
  }

  /** Java's `long` division, which truncates toward zero, for a positive divisor. */
  function JavaDiv(a: int, b: int): int
    requires b > 0
  {
    if a >= 0 then a / b else -((-a) / b)
  }

  /**
   * What every Buckets object keeps: N slots, the cursor in [-1, N), every
   * slot to the right of the cursor zero, and no start time before first use.
   */
  predicate WellFormed(w: Window, n: int) {
    && n >= 1
    && |w.slots| == n
    && -1 <= w.cursor < n
    && (forall i :: w.cursor < i < n ==> w.slots[i] == 0)
    && (w.cursor == -1 ==> w.startMillis == -1)
  }

  /**
   * An increment can be computed: the bucket width is not negative, and it is
   * positive once the window has started (Java divides by it from the second
   * increment on and throws on zero).
   */
  predicate Steppable(w: Window, widthMillis: int) {
    widthMillis >= 0 && (w.cursor < 0 || widthMillis > 0)
  }

  /** A new Buckets object: all slots zero, cursor and start time -1. */
  function Initial(n: nat): Window {
    Window(Zeros(n), -1, -1)
  }

  /** How many buckets `now` lies past the start of the current one. */
  function SkipCount(w: Window, now: int, widthMillis: int): int
    requires widthMillis > 0
  {
    JavaDiv(now - w.startMillis, widthMillis)
  }

  /** The slots from `from` onward moved to the front, the freed trailing slots zero. */
  function ShiftLeft(slots: seq<int>, from: nat): seq<int>
    requires from <= |slots|
  {
    slots[from..] + Zeros(from)
  }

  /**
   * The rotation `incrementCount` performs before it adds: start the window
   * on first use; stay put within the current bucket; move the cursor when
   * the new bucket is still inside the array; otherwise shift left so that
   * the cursor lands on the last slot, zeroing everything when the gap is at
   * least N buckets. The start time moves by whole buckets only.
   */
  function Rotate(w: Window, now: int, widthMillis: int): (r: Window)
    requires WellFormed(w, |w.slots|) && Steppable(w, widthMillis)
    ensures WellFormed(r, |w.slots|) && 0 <= r.cursor
  {
    var n := |w.slots|;
    if w.cursor < 0 then Window(w.slots, 0, now)
    else
      var skip := SkipCount(w, now, widthMillis);
      if skip <= 0 then w
      else if w.cursor + skip >= n then
        Window(if skip < n then ShiftLeft(w.slots, w.cursor + skip - n + 1) else Zeros(n),
               n - 1, w.startMillis + widthMillis * skip)
      else
        Window(w.slots, w.cursor + skip, w.startMillis + widthMillis * skip)
  }

  /** `incrementCount(count)` at time `now`: rotate, then add `count` to the current slot. */
  function Increment(w: Window, count: int, now: int, widthMillis: int): (r: Window)
    requires WellFormed(w, |w.slots|) && Steppable(w, widthMillis)
    ensures WellFormed(r, |w.slots|) && 0 <= r.cursor
  {
    var rotated := Rotate(w, now, widthMillis);
    rotated.(slots := rotated.slots[rotated.cursor := rotated.slots[rotated.cursor] + count])
  }

  /** The window after `isLimited(isUpdateCount, count)`: incremented only when asked to count. */
  function Checked(w: Window, isUpdateCount: bool, count: int, now: int, widthMillis: int): (r: Window)
    requires WellFormed(w, |w.slots|) && (isUpdateCount ==> Steppable(w, widthMillis))
    ensures WellFormed(r, |w.slots|)
  {
    if isUpdateCount then Increment(w, count, now, widthMillis) else w
  }

  /**
   * The read-only check as a rolling window needs it (the source's
   * `isLimited(false, …)` skips this step): a started window is first rotated
   * to the bucket containing `now`, dropping the buckets that have fallen out,
   * and nothing is added. That is an increment by zero.
   */
  function Aged(w: Window, now: int, widthMillis: int): (r: Window)
    requires WellFormed(w, |w.slots|) && Steppable(w, widthMillis)
    ensures WellFormed(r, |w.slots|)
    ensures w.cursor >= 0 ==> r == Increment(w, 0, now, widthMillis)
    ensures w.cursor < 0 ==> r == w
  {
    if w.cursor < 0 then w
    else
      var rotated := Rotate(w, now, widthMillis);
      assert rotated.slots[rotated.cursor := rotated.slots[rotated.cursor] + 0] == rotated.slots;
      rotated
  }

  /** The total of the slots, added up from the front as `isLimited` does. */
  function Sum(s: seq<int>): int
    decreases |s|
  {
    if |s| == 0 then 0 else Sum(s[..|s| - 1]) + s[|s| - 1]
  }

  /** How many of the oldest slots an increment at `now` discards: 0 unless it shifts, N when it resets. */
  function Dropped(w: Window, now: int, widthMillis: int): (d: nat)
    requires WellFormed(w, |w.slots|) && Steppable(w, widthMillis)
    ensures d <= |w.slots|
  {
    var n := |w.slots|;
    if w.cursor < 0 then 0
    else
      var skip := SkipCount(w, now, widthMillis);
      if skip <= 0 || w.cursor + skip < n then 0
      else if skip < n then w.cursor + skip - n + 1
      else n
  }

  // ---------------------------------------------------------------- Sum facts

  lemma {:induction false} SumAppend(a: seq<int>, b: seq<int>)
    ensures Sum(a + b) == Sum(a) + Sum(b)
    decreases |b|
  {
    if |b| > 0 {
      assert (a + b)[..|a + b| - 1] == a + b[..|b| - 1];
      assert (a + b)[|a + b| - 1] == b[|b| - 1];
      SumAppend(a, b[..|b| - 1]);
    } else {
      assert a + b == a;
    }
  }

  lemma {:induction false} SumZeros(n: nat)
    ensures Sum(Zeros(n)) == 0
    decreases n
  {
    if n > 0 {
      assert Zeros(n)[..n - 1] == Zeros(n - 1);
      SumZeros(n - 1);
    }
  }

  /** Adding `c` to one slot adds `c` to the total. */
  lemma SumUpdate(s: seq<int>, i: nat, c: int)
    requires i < |s|
    ensures Sum(s[i := s[i] + c]) == Sum(s) + c
  {
    assert s == s[..i] + [s[i]] + s[i + 1..];
    assert s[i := s[i] + c] == s[..i] + [s[i] + c] + s[i + 1..];
    SumAppend(s[..i] + [s[i]], s[i + 1..]);
    SumAppend(s[..i], [s[i]]);
    SumAppend(s[..i] + [s[i] + c], s[i + 1..]);
    SumAppend(s[..i], [s[i] + c]);
  }

  // ------------------------------------------------ what one increment does

  /** The first increment starts the window at `now` with `count` in slot 0 and every other slot zero. */
  lemma FirstIncrement(w: Window, count: int, now: int, widthMillis: int)
    requires WellFormed(w, |w.slots|) && widthMillis > 0 && w.cursor == -1
    ensures Increment(w, count, now, widthMillis).cursor == 0
    ensures Increment(w, count, now, widthMillis).startMillis == now
    ensures Increment(w, count, now, widthMillis).slots == [count] + Zeros(|w.slots| - 1)
  {
    var r := Increment(w, count, now, widthMillis);
    assert r.slots == [count] + Zeros(|w.slots| - 1);
  }

  /** Within the current bucket only the current slot changes, by exactly `count`. */
  lemma SameBucket(w: Window, count: int, now: int, widthMillis: int)
    requires WellFormed(w, |w.slots|) && widthMillis > 0 && 0 <= w.cursor
    requires SkipCount(w, now, widthMillis) <= 0
    ensures Increment(w, count, now, widthMillis) == w.(slots := w.slots[w.cursor := w.slots[w.cursor] + count])
  {
  }

  /**
   * When the new bucket is still inside the array, the cursor moves forward
   * by the number of buckets skipped, no slot moves, the new current slot
   * (zero until now) holds exactly `count`, and the start time moves by
   * whole buckets.
   */
  lemma AdvanceCursor(w: Window, count: int, now: int, widthMillis: int)
    requires WellFormed(w, |w.slots|) && widthMillis > 0 && 0 <= w.cursor
    requires 0 < SkipCount(w, now, widthMillis) && w.cursor + SkipCount(w, now, widthMillis) < |w.slots|
    ensures var skip := SkipCount(w, now, widthMillis);
            var r := Increment(w, count, now, widthMillis);
            && r.cursor == w.cursor + skip
            && r.slots == w.slots[w.cursor + skip := count]
            && r.startMillis == w.startMillis + skip * widthMillis
  {
  }

  /**
   * When the new bucket falls past the end but less than N buckets away,
   * the slots from index cursor+skip-N+1 move to the front (every index read
   * and written lies in [0, N)), the trailing slots are zero, the cursor is
   * the last slot, and that slot holds exactly `count`.
   */
  lemma ShiftBuckets(w: Window, count: int, now: int, widthMillis: int)
    requires WellFormed(w, |w.slots|) && widthMillis > 0 && 0 <= w.cursor
    requires w.cursor + SkipCount(w, now, widthMillis) >= |w.slots| > SkipCount(w, now, widthMillis)
    ensures var n, skip := |w.slots|, SkipCount(w, now, widthMillis);
            var from := w.cursor + skip - n + 1;
            var r := Increment(w, count, now, widthMillis);
            && 1 <= from < n
            && r.cursor == n - 1
            && (forall j :: 0 <= j < n - from ==> r.slots[j] == w.slots[j + from])
            && (forall j :: n - from <= j < n - 1 ==> r.slots[j] == 0)
            && r.slots[n - 1] == count
            && r.startMillis == w.startMillis + skip * widthMillis
  {
  }

  /** A gap of N buckets or more leaves nothing of the old window: only the last slot is non-zero and it holds `count`. */
  lemma ResetBuckets(w: Window, count: int, now: int, widthMillis: int)
    requires WellFormed(w, |w.slots|) && widthMillis > 0 && 0 <= w.cursor
    requires SkipCount(w, now, widthMillis) >= |w.slots|
    ensures Increment(w, count, now, widthMillis).slots == Zeros(|w.slots| - 1) + [count]
    ensures Increment(w, count, now, widthMillis).cursor == |w.slots| - 1
    ensures Increment(w, count, now, widthMillis).startMillis == w.startMillis + SkipCount(w, now, widthMillis) * widthMillis
  {
    var r := Increment(w, count, now, widthMillis);
    assert r.slots == Zeros(|w.slots| - 1) + [count];
  }

  /**
   * After an increment whose `now` is not before the current bucket's start,
   * `now` lies in the (new) current bucket.
   */
  lemma IncrementAligns(w: Window, count: int, now: int, widthMillis: int)
    requires WellFormed(w, |w.slots|) && widthMillis > 0
    requires w.cursor < 0 || w.startMillis <= now
    ensures var r := Increment(w, count, now, widthMillis);
            r.startMillis <= now < r.startMillis + widthMillis
  {
    if w.cursor >= 0 {
      var d := now - w.startMillis;
      var skip := d / widthMillis;
      assert skip * widthMillis <= d < skip * widthMillis + widthMillis;
      assert widthMillis * skip == skip * widthMillis;
    }
  }

  /**
   * The total after an increment: the old total less the discarded oldest
   * slots, plus `count`. Nothing but the shift or the reset ever loses a count.
   */
  lemma IncrementSum(w: Window, count: int, now: int, widthMillis: int)
    requires WellFormed(w, |w.slots|) && Steppable(w, widthMillis)
    ensures Sum(Increment(w, count, now, widthMillis).slots) == Sum(w.slots[Dropped(w, now, widthMillis)..]) + count
  {
    var n := |w.slots|;
    var r := Rotate(w, now, widthMillis);
    var d := Dropped(w, now, widthMillis);
    if d == 0 {
      assert w.slots[0..] == w.slots;
      if w.cursor >= 0 && SkipCount(w, now, widthMillis) > 0 && w.cursor + SkipCount(w, now, widthMillis) >= n {
        // a shift by zero cannot happen: the first kept index is at least 1
        assert false;
      }
      assert r.slots == w.slots;
    } else if d < n {
      assert r.slots == ShiftLeft(w.slots, d);
      SumAppend(w.slots[d..], Zeros(d));
      SumZeros(d);
    } else {
      assert r.slots == Zeros(n);
      SumZeros(n);
      assert w.slots[n..] == [];
    }
    SumUpdate(r.slots, r.cursor, count);
  }

  /** Buckets.java: one key's window, kept in an array that `incrementCount` rotates in place or swaps for a new one. */
  class Buckets {
    const numberOfBuckets: int
    const bucketSizeSeconds: int
    const rateCount: int
    var bucket: array<int>
    var currentBucketTimeMillis: int
    var currentBucket: int

    function WidthMillis(): int {
      bucketSizeSeconds * 1000
    }

    /** The fields as a Window value. */
    function State(): Window
      reads this, bucket
    {
      Window(bucket[..], currentBucket, currentBucketTimeMillis)
    }

    ghost predicate Valid()
      reads this, bucket
    {
      && numberOfBuckets >= 1
      && bucketSizeSeconds >= 0
      && bucket.Length == numberOfBuckets
      && WellFormed(State(), numberOfBuckets)
    }

    /**
     * The bucket size is the period divided by the bucket count, in whole
     * seconds; every bucket starts at zero and the window is not started.
     */
    constructor (rateCount: int, ratePeriodSeconds: int, numberOfBuckets: int)
      requires 1 <= numberOfBuckets && 0 <= ratePeriodSeconds
      ensures Valid() && fresh(bucket)
      ensures State() == Initial(numberOfBuckets)
      ensures this.numberOfBuckets == numberOfBuckets && this.rateCount == rateCount
      ensures bucketSizeSeconds == ratePeriodSeconds / numberOfBuckets
      ensures bucketSizeSeconds * numberOfBuckets <= ratePeriodSeconds < (bucketSizeSeconds + 1) * numberOfBuckets
    {
      var b := new int[numberOfBuckets];
      for i := 0 to numberOfBuckets
        invariant forall k :: 0 <= k < i ==> b[k] == 0
      {
        b[i] := 0;
      }
      assert b[..] == Zeros(numberOfBuckets);
      this.numberOfBuckets := numberOfBuckets;
      bucketSizeSeconds := ratePeriodSeconds / numberOfBuckets;
      this.rateCount := rateCount;
      bucket := b;
      currentBucketTimeMillis := -1;
      currentBucket := -1;
    }

    /**
     * `incrementCount(count)` at time `now`: the new state is the rotated
     * window with `count` added to the current bucket. The array is either
     * the same one or, after a shift, a new one.
     */
    method IncrementCount(count: int, now: int)
      requires Valid() && Steppable(State(), WidthMillis())
      modifies this, bucket
      ensures Valid() && (bucket == old(bucket) || fresh(bucket))
      ensures State() == Increment(old(State()), count, now, WidthMillis())
    {
      ghost var rotated := Rotate(State(), now, WidthMillis());
      if currentBucket < 0 {
        currentBucket := 0;
        currentBucketTimeMillis := now;
      } else {
        var nowMillis := now;
        var numberOfBucketsToSkip := JavaDiv(nowMillis - currentBucketTimeMillis, bucketSizeSeconds * 1000);
        if numberOfBucketsToSkip > 0 {
          if currentBucket + numberOfBucketsToSkip >= numberOfBuckets {
            var tempBucket := NewShiftedBucket(numberOfBucketsToSkip);
            bucket := tempBucket;
            currentBucket := numberOfBuckets - 1;
          } else {
            currentBucket := currentBucket + numberOfBucketsToSkip;
          }
          currentBucketTimeMillis := currentBucketTimeMillis + (bucketSizeSeconds * 1000) * numberOfBucketsToSkip;
        }
      }
      assert State() == rotated;
      bucket[currentBucket] := bucket[currentBucket] + count;
    }

    /**
     * The array a shift swaps in: zero-filled, then, when fewer than N
     * buckets are skipped, the slots from cursor+skip-N+1 on copied to the
     * front; every index read and written stays inside the arrays.
     */
    method NewShiftedBucket(numberOfBucketsToSkip: int) returns (tempBucket: array<int>)
      requires Valid() && 0 <= currentBucket && currentBucket + numberOfBucketsToSkip >= numberOfBuckets
      requires numberOfBucketsToSkip > 0
      ensures fresh(tempBucket)
      ensures tempBucket[..] == if numberOfBucketsToSkip < numberOfBuckets
                                then ShiftLeft(bucket[..], currentBucket + numberOfBucketsToSkip - numberOfBuckets + 1)
                                else Zeros(numberOfBuckets)
    {
      tempBucket := new int[numberOfBuckets];
      for i := 0 to numberOfBuckets
        invariant forall k :: 0 <= k < i ==> tempBucket[k] == 0
      {
        tempBucket[i] := 0;
      }
      if numberOfBucketsToSkip < numberOfBuckets {
        var startBucketIndex := currentBucket + numberOfBucketsToSkip - numberOfBuckets + 1;
        var i, j := startBucketIndex, 0;
        while i < numberOfBuckets
          invariant startBucketIndex <= i <= numberOfBuckets && j == i - startBucketIndex
          invariant forall k :: 0 <= k < j ==> tempBucket[k] == bucket[k + startBucketIndex]
          invariant forall k :: j <= k < numberOfBuckets ==> tempBucket[k] == 0
        {
          tempBucket[j] := bucket[i];
          i, j := i + 1, j + 1;
        }
        assert tempBucket[..] == ShiftLeft(bucket[..], startBucketIndex);
      } else {
        assert tempBucket[..] == Zeros(numberOfBuckets);
      }
    }

    /** `incrementCount()`: an increment by one. */
    method IncrementCountByOne(now: int)
      requires Valid() && Steppable(State(), WidthMillis())
      modifies this, bucket
      ensures Valid() && (bucket == old(bucket) || fresh(bucket))
      ensures State() == Increment(old(State()), 1, now, WidthMillis())
    {
      IncrementCount(1, now);
    }

    /**
     * `isLimited(isUpdateCount, count)`: optionally increments, then reports
     * whether the total of all buckets is strictly above the rate count.
     */
    method IsLimited(isUpdateCount: bool, count: int, now: int) returns (isOverCount: bool)
      requires Valid() && (isUpdateCount ==> Steppable(State(), WidthMillis()))
      modifies this, bucket
      ensures Valid() && (bucket == old(bucket) || fresh(bucket))
      ensures State() == Checked(old(State()), isUpdateCount, count, now, WidthMillis())
      ensures isOverCount <==> Sum(bucket[..]) > rateCount
    {
      if isUpdateCount {
        IncrementCount(count, now);
      }
      var bucketSum := 0;
      for i := 0 to numberOfBuckets
        invariant bucketSum == Sum(bucket[..i])
      {
        assert bucket[..i + 1][..i] == bucket[..i];
        bucketSum := bucketSum + bucket[i];
      }
      assert bucket[..numberOfBuckets] == bucket[..];
      isOverCount := false;
      if bucketSum > rateCount {
        isOverCount := true;
      }
    }

    /** `isLimited()`: counts one request and checks. */
    method IsLimitedOne(now: int) returns (isOverCount: bool)
      requires Valid() && Steppable(State(), WidthMillis())
      modifies this, bucket
      ensures Valid() && (bucket == old(bucket) || fresh(bucket))
      ensures State() == Increment(old(State()), 1, now, WidthMillis())
      ensures isOverCount <==> Sum(bucket[..]) > rateCount
    {
      isOverCount := IsLimited(true, 1, now);
    }

    /** `isLimited(count)`: counts `count` requests and checks. */
    method IsLimitedCounting(count: int, now: int) returns (isOverCount: bool)
      requires Valid() && Steppable(State(), WidthMillis())
      modifies this, bucket
      ensures Valid() && (bucket == old(bucket) || fresh(bucket))
      ensures State() == Increment(old(State()), count, now, WidthMillis())
      ensures isOverCount <==> Sum(bucket[..]) > rateCount
    {
      isOverCount := IsLimited(true, count, now);
    }

    /** `isLimited(isUpdateCount)`: optionally counts one request, then checks. */
    method IsLimitedUpdating(isUpdateCount: bool, now: int) returns (isOverCount: bool)
      requires Valid() && (isUpdateCount ==> Steppable(State(), WidthMillis()))
      modifies this, bucket
      ensures Valid() && (bucket == old(bucket) || fresh(bucket))
      ensures State() == Checked(old(State()), isUpdateCount, 1, now, WidthMillis())
      ensures isOverCount <==> Sum(bucket[..]) > rateCount
    {
      isOverCount := IsLimited(isUpdateCount, 1, now);
    }
  }
}
