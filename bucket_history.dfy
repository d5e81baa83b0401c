/**
 * What a Buckets object counts, over a whole history of `incrementCount`
 * calls made with a clock that never goes back: each slot holds the total
 * of the calls that fell in one bucket-width interval measured from the
 * first call, and the sum of the slots is the total of the calls in the
 * current bucket and the N-1 before it.
 */
module BucketHistory {
  import opened LocalBuckets
  import opened Arithmetic

  /** One `incrementCount(count)` call and the clock reading it saw. */
  datatype Event = Event(count: int, millis: int)

  predicate Chronological(events: seq<Event>) {
    forall i, j :: 0 <= i < j < |events| ==> events[i].millis <= events[j].millis
  }

  /** The window after the calls in `events`, in order, on a new Buckets object of `n` buckets. */
  function Replay(n: int, widthMillis: int, events: seq<Event>): (w: Window)
    requires n >= 1 && widthMillis > 0
    ensures WellFormed(w, n)
    decreases |events|
  {
    if |events| == 0 then Initial(n)
    else
      var last := events[|events| - 1];
      Increment(Replay(n, widthMillis, events[..|events| - 1]), last.count, last.millis, widthMillis)
  }

  /** The bucket a clock reading falls in: whole bucket widths since the first call at `t0`. */
  function BucketOf(t0: int, widthMillis: int, t: int): int
    requires widthMillis > 0
  {
    (t - t0) / widthMillis
  }

  /** The total count of the calls whose bucket lies in [lo, hi). */
  function CountIn(events: seq<Event>, t0: int, widthMillis: int, lo: int, hi: int): int
    requires widthMillis > 0
    decreases |events|
  {
    if |events| == 0 then 0
    else
      var e := events[|events| - 1];
      CountIn(events[..|events| - 1], t0, widthMillis, lo, hi)
        + (if lo <= BucketOf(t0, widthMillis, e.millis) < hi then e.count else 0)
  }

  /** A clock reading lies in its bucket, which starts a whole number of widths after `t0`. */
  lemma BucketBounds(t0: int, widthMillis: int, t: int)
    requires widthMillis > 0
    ensures var c := BucketOf(t0, widthMillis, t);
            t0 + widthMillis * c <= t < t0 + widthMillis * c + widthMillis
  {
    var c := BucketOf(t0, widthMillis, t);
    DivBounds(t - t0, widthMillis);
    assert c * widthMillis == widthMillis * c;
  }

  /**
   * From the current bucket's start, Java's skip count for a later reading
   * is the distance between the two buckets, and moving the start by that
   * many widths lands on the later reading's bucket.
   */
  lemma SkipDistance(t0: int, widthMillis: int, last: int, t: int)
    requires widthMillis > 0 && t0 <= last <= t
    ensures var c, c2 := BucketOf(t0, widthMillis, last), BucketOf(t0, widthMillis, t);
            && c <= c2
            && JavaDiv(t - (t0 + widthMillis * c), widthMillis) == c2 - c
            && t0 + widthMillis * c + widthMillis * (c2 - c) == t0 + widthMillis * c2
  {
    var c, c2 := BucketOf(t0, widthMillis, last), BucketOf(t0, widthMillis, t);
    BucketBounds(t0, widthMillis, last);
    DivMono(last - t0, t - t0, widthMillis);
    DivShift(t - t0, widthMillis, c);
    assert t - (t0 + widthMillis * c) == (t - t0) - widthMillis * c;
    assert widthMillis * c + widthMillis * (c2 - c) == widthMillis * c2;
  }

  /** In a chronological history every call lies between bucket 0 and the last call's bucket. */
  lemma BucketsInOrder(events: seq<Event>, widthMillis: int)
    requires widthMillis > 0 && |events| >= 1 && Chronological(events)
    ensures forall i :: 0 <= i < |events| ==>
              0 <= BucketOf(events[0].millis, widthMillis, events[i].millis)
                <= BucketOf(events[0].millis, widthMillis, events[|events| - 1].millis)
  {
    var t0, last := events[0].millis, events[|events| - 1].millis;
    forall i | 0 <= i < |events|
      ensures 0 <= BucketOf(t0, widthMillis, events[i].millis) <= BucketOf(t0, widthMillis, last)
    {
      DivMono(events[i].millis - t0, last - t0, widthMillis);
      DivMono(0, events[i].millis - t0, widthMillis);
    }
  }

  // ----------------------------------------------------------- count facts

  lemma CountLast(events: seq<Event>, e: Event, t0: int, widthMillis: int, lo: int, hi: int)
    requires widthMillis > 0
    ensures CountIn(events + [e], t0, widthMillis, lo, hi)
         == CountIn(events, t0, widthMillis, lo, hi) + (if lo <= BucketOf(t0, widthMillis, e.millis) < hi then e.count else 0)
  {
    assert (events + [e])[..|events|] == events;
  }

  /** No call falls in [lo, hi): the total there is zero. */
  lemma {:induction false} CountEmpty(events: seq<Event>, t0: int, widthMillis: int, lo: int, hi: int)
    requires widthMillis > 0
    requires forall i :: 0 <= i < |events| ==> !(lo <= BucketOf(t0, widthMillis, events[i].millis) < hi)
    ensures CountIn(events, t0, widthMillis, lo, hi) == 0
    decreases |events|
  {
    if |events| > 0 {
      CountEmpty(events[..|events| - 1], t0, widthMillis, lo, hi);
    }
  }

  lemma {:induction false} CountSplit(events: seq<Event>, t0: int, widthMillis: int, lo: int, mid: int, hi: int)
    requires widthMillis > 0 && lo <= mid <= hi
    ensures CountIn(events, t0, widthMillis, lo, hi)
         == CountIn(events, t0, widthMillis, lo, mid) + CountIn(events, t0, widthMillis, mid, hi)
    decreases |events|
  {
    if |events| > 0 {
      CountSplit(events[..|events| - 1], t0, widthMillis, lo, mid, hi);
    }
  }

  /** Slots holding the totals of consecutive buckets add up to the total of the whole range. */
  lemma {:induction false} SlotsSum(slots: seq<int>, events: seq<Event>, t0: int, widthMillis: int, base: int)
    requires widthMillis > 0
    requires forall j :: 0 <= j < |slots| ==> slots[j] == CountIn(events, t0, widthMillis, base + j, base + j + 1)
    ensures Sum(slots) == CountIn(events, t0, widthMillis, base, base + |slots|)
    decreases |slots|
  {
    if |slots| > 0 {
      var k := |slots| - 1;
      assert forall j :: 0 <= j < k ==> slots[..k][j] == slots[j];
      SlotsSum(slots[..k], events, t0, widthMillis, base);
      CountSplit(events, t0, widthMillis, base, base + k, base + k + 1);
    } else {
      CountEmpty(events, t0, widthMillis, base, base);
    }
  }

  // ------------------------------------------------------------ the replay

  /** What the window says after a non-empty chronological history. */
  ghost predicate Counts(n: int, widthMillis: int, events: seq<Event>, w: Window)
    requires n >= 1 && widthMillis > 0 && |events| >= 1
  {
    var t0 := events[0].millis;
    CountsFrom(n, widthMillis, events, w, t0, BucketOf(t0, widthMillis, events[|events| - 1].millis))
  }

  /**
   * The window ends on bucket c counted from `t0`: its current bucket
   * starts c widths after `t0`, and slot j holds the total of bucket
   * c - cursor + j, the cursor sitting on slot c or on the last slot.
   */
  ghost predicate CountsFrom(n: int, widthMillis: int, events: seq<Event>, w: Window, t0: int, c: int)
    requires widthMillis > 0
  {
    && |w.slots| == n
    && 0 <= w.cursor
    && w.startMillis == t0 + widthMillis * c
    && (c - w.cursor == 0 || w.cursor == n - 1)
    && SlotsCount(w.slots, events, t0, widthMillis, c - w.cursor)
  }

  /** The first call: slot 0 holds its count, every other slot zero. */
  lemma ReplayFirst(n: int, widthMillis: int, e: Event)
    requires n >= 1 && widthMillis > 0
    ensures Counts(n, widthMillis, [e], Replay(n, widthMillis, [e]))
  {
    var w := Replay(n, widthMillis, [e]);
    assert [e][..0] == [];
    assert Replay(n, widthMillis, [e][..0]) == Initial(n);
    assert w == Increment(Initial(n), e.count, e.millis, widthMillis);
    assert BucketOf(e.millis, widthMillis, e.millis) == 0;
    FirstIncrement(Initial(n), e.count, e.millis, widthMillis);
    forall j | 0 <= j < n
      ensures w.slots[j] == CountIn([e], e.millis, widthMillis, j, j + 1)
    {
      CountLast([], e, e.millis, widthMillis, j, j + 1);
      assert [] + [e] == [e];
    }
  }

  /** Slot j holds the total of the calls in bucket base + j. */
  ghost predicate SlotsCount(slots: seq<int>, events: seq<Event>, t0: int, widthMillis: int, base: int)
    requires widthMillis > 0
  {
    forall j :: 0 <= j < |slots| ==> slots[j] == CountIn(events, t0, widthMillis, base + j, base + j + 1)
  }

  /** Every call of `p` lies in bucket c or before. */
  predicate UpTo(p: seq<Event>, t0: int, widthMillis: int, c: int)
    requires widthMillis > 0
  {
    forall i :: 0 <= i < |p| ==> BucketOf(t0, widthMillis, p[i].millis) <= c
  }

  /**
   * After one more call `e` in bucket c2, the total of bucket b is what the
   * old slot for b held (zero for a bucket past c, which no earlier call
   * reached) plus `e`'s count when b is c2.
   */
  lemma SlotAfter(s: seq<int>, p: seq<Event>, e: Event, t0: int, widthMillis: int, base: int, c: int, c2: int, b: int, v: int)
    requires widthMillis > 0 && UpTo(p, t0, widthMillis, c) && c2 == BucketOf(t0, widthMillis, e.millis)
    requires SlotsCount(s, p, t0, widthMillis, base)
    requires (0 <= b - base < |s| && v == s[b - base]) || (b > c && v == 0)
    ensures v + (if b == c2 then e.count else 0) == CountIn(p + [e], t0, widthMillis, b, b + 1)
  {
    CountLast(p, e, t0, widthMillis, b, b + 1);
    if !(0 <= b - base < |s| && v == s[b - base]) {
      CountEmpty(p, t0, widthMillis, b, b + 1);
    }
  }

  /** A call in the current bucket adds its count to the current slot; nothing else changes. */
  lemma StepSame(n: int, widthMillis: int, w: Window, r: Window, p: seq<Event>, e: Event, t0: int, c: int)
    requires widthMillis > 0 && UpTo(p, t0, widthMillis, c) && c == BucketOf(t0, widthMillis, e.millis)
    requires CountsFrom(n, widthMillis, p, w, t0, c) && w.cursor < n
    requires r == w.(slots := w.slots[w.cursor := w.slots[w.cursor] + e.count])
    ensures CountsFrom(n, widthMillis, p + [e], r, t0, c)
  {
    var k := w.cursor;
    forall j | 0 <= j < n
      ensures r.slots[j] == CountIn(p + [e], t0, widthMillis, c - k + j, c - k + j + 1)
    {
      if j == k {
        SlotAfter(w.slots, p, e, t0, widthMillis, c - k, c, c, c - k + j, w.slots[k]);
      } else {
        SlotAfter(w.slots, p, e, t0, widthMillis, c - k, c, c, c - k + j, r.slots[j]);
      }
    }
  }

  /**
   * A call a few buckets on, still inside the array: the cursor moves by
   * the distance, the new slot holds the count, the start moves by whole
   * buckets.
   */
  lemma StepAdvance(n: int, widthMillis: int, w: Window, r: Window, p: seq<Event>, e: Event, t0: int, c: int, c2: int)
    requires widthMillis > 0 && UpTo(p, t0, widthMillis, c) && c2 == BucketOf(t0, widthMillis, e.millis) && c < c2
    requires CountsFrom(n, widthMillis, p, w, t0, c) && w.cursor < n
    requires t0 + widthMillis * c + widthMillis * (c2 - c) == t0 + widthMillis * c2
    requires r.cursor == w.cursor + (c2 - c) < n && r.slots == w.slots[r.cursor := e.count]
    requires r.startMillis == w.startMillis + (c2 - c) * widthMillis
    ensures CountsFrom(n, widthMillis, p + [e], r, t0, c2)
  {
    var k, k2 := w.cursor, r.cursor;
    assert (c2 - c) * widthMillis == widthMillis * (c2 - c);
    forall j | 0 <= j < n
      ensures r.slots[j] == CountIn(p + [e], t0, widthMillis, c2 - k2 + j, c2 - k2 + j + 1)
    {
      if j == k2 {
        SlotAfter(w.slots, p, e, t0, widthMillis, c - k, c, c2, c2, 0);
      } else {
        SlotAfter(w.slots, p, e, t0, widthMillis, c - k, c, c2, c2 - k2 + j, r.slots[j]);
      }
    }
  }

  /**
   * A call past the end of the array, less than N buckets on: the slots
   * move `from` places to the front, zeros follow, and the last slot,
   * now the current one, holds the count.
   */
  lemma StepShift(n: int, widthMillis: int, w: Window, r: Window, from: int, p: seq<Event>, e: Event, t0: int, c: int, c2: int)
    requires widthMillis > 0 && UpTo(p, t0, widthMillis, c) && c2 == BucketOf(t0, widthMillis, e.millis) && c < c2
    requires CountsFrom(n, widthMillis, p, w, t0, c) && w.cursor < n
    requires t0 + widthMillis * c + widthMillis * (c2 - c) == t0 + widthMillis * c2
    requires from == w.cursor + (c2 - c) - n + 1 && 1 <= from < n
    requires |r.slots| == n && r.cursor == n - 1
    requires forall j :: 0 <= j < n - from ==> r.slots[j] == w.slots[j + from]
    requires forall j :: n - from <= j < n - 1 ==> r.slots[j] == 0
    requires r.slots[n - 1] == e.count
    requires r.startMillis == w.startMillis + (c2 - c) * widthMillis
    ensures CountsFrom(n, widthMillis, p + [e], r, t0, c2)
  {
    var k := w.cursor;
    var base2 := c2 - (n - 1);
    assert (c2 - c) * widthMillis == widthMillis * (c2 - c);
    forall j | 0 <= j < n
      ensures r.slots[j] == CountIn(p + [e], t0, widthMillis, base2 + j, base2 + j + 1)
    {
      if j < n - from {
        assert (base2 + j) - (c - k) == j + from;
        SlotAfter(w.slots, p, e, t0, widthMillis, c - k, c, c2, base2 + j, r.slots[j]);
      } else if j < n - 1 {
        SlotAfter(w.slots, p, e, t0, widthMillis, c - k, c, c2, base2 + j, 0);
      } else {
        SlotAfter(w.slots, p, e, t0, widthMillis, c - k, c, c2, c2, 0);
      }
    }
  }

  /** A call N buckets on or more: only the last slot, holding the count, is non-zero. */
  lemma StepReset(n: int, widthMillis: int, w: Window, r: Window, p: seq<Event>, e: Event, t0: int, c: int, c2: int)
    requires widthMillis > 0 && UpTo(p, t0, widthMillis, c) && c2 == BucketOf(t0, widthMillis, e.millis)
    requires CountsFrom(n, widthMillis, p, w, t0, c) && w.cursor < n && c2 - c >= n
    requires t0 + widthMillis * c + widthMillis * (c2 - c) == t0 + widthMillis * c2
    requires r.slots == Zeros(n - 1) + [e.count] && r.cursor == n - 1
    requires r.startMillis == w.startMillis + (c2 - c) * widthMillis
    ensures CountsFrom(n, widthMillis, p + [e], r, t0, c2)
  {
    var k := w.cursor;
    var base2 := c2 - (n - 1);
    assert (c2 - c) * widthMillis == widthMillis * (c2 - c);
    forall j | 0 <= j < n
      ensures r.slots[j] == CountIn(p + [e], t0, widthMillis, base2 + j, base2 + j + 1)
    {
      if j < n - 1 {
        assert r.slots[j] == Zeros(n - 1)[j];
        SlotAfter(w.slots, p, e, t0, widthMillis, c - k, c, c2, base2 + j, 0);
      } else {
        SlotAfter(w.slots, p, e, t0, widthMillis, c - k, c, c2, c2, 0);
      }
    }
  }

  /**
   * The slot bookkeeping of one more call in bucket c2, after a history
   * whose calls all lie in bucket c or before, when the window skips
   * exactly c2 - c buckets.
   */
  lemma StepSlots(n: int, widthMillis: int, w: Window, p: seq<Event>, e: Event, t0: int, c: int, c2: int)
    requires n >= 1 && widthMillis > 0 && WellFormed(w, n)
    requires UpTo(p, t0, widthMillis, c) && CountsFrom(n, widthMillis, p, w, t0, c)
    requires c2 == BucketOf(t0, widthMillis, e.millis) && c <= c2
    requires SkipCount(w, e.millis, widthMillis) == c2 - c
    requires t0 + widthMillis * c + widthMillis * (c2 - c) == t0 + widthMillis * c2
    ensures CountsFrom(n, widthMillis, p + [e], Increment(w, e.count, e.millis, widthMillis), t0, c2)
  {
    var r := Increment(w, e.count, e.millis, widthMillis);
    if c2 == c {
      SameBucket(w, e.count, e.millis, widthMillis);
      StepSame(n, widthMillis, w, r, p, e, t0, c);
    } else if w.cursor + (c2 - c) < n {
      AdvanceCursor(w, e.count, e.millis, widthMillis);
      StepAdvance(n, widthMillis, w, r, p, e, t0, c, c2);
    } else if c2 - c < n {
      ShiftBuckets(w, e.count, e.millis, widthMillis);
      StepShift(n, widthMillis, w, r, w.cursor + (c2 - c) - n + 1, p, e, t0, c, c2);
    } else {
      ResetBuckets(w, e.count, e.millis, widthMillis);
      StepReset(n, widthMillis, w, r, p, e, t0, c, c2);
    }
  }

  /** Dropping the last call of a chronological history leaves one, which ends no later than that call. */
  lemma ChronologicalPrefix(p: seq<Event>, e: Event)
    requires |p| >= 1 && Chronological(p + [e])
    ensures Chronological(p) && p[0].millis <= p[|p| - 1].millis <= e.millis
  {
    var events := p + [e];
    forall i, j | 0 <= i < j < |p|
      ensures p[i].millis <= p[j].millis
    {
      assert events[i] == p[i] && events[j] == p[j];
    }
    assert events[|p| - 1] == p[|p| - 1] && events[|p|] == e;
  }

  /** Before one more call, a chronological history's calls all lie in its last call's bucket or before. */
  lemma PrefixUpTo(p: seq<Event>, e: Event, widthMillis: int)
    requires |p| >= 1 && widthMillis > 0 && Chronological(p + [e])
    ensures p[0].millis <= p[|p| - 1].millis <= e.millis
    ensures UpTo(p, p[0].millis, widthMillis, BucketOf(p[0].millis, widthMillis, p[|p| - 1].millis))
  {
    ChronologicalPrefix(p, e);
    BucketsInOrder(p, widthMillis);
  }

  /** One more call after a history the window counts correctly keeps it counting correctly. */
  lemma CountsStep(n: int, widthMillis: int, p: seq<Event>, e: Event, w: Window)
    requires n >= 1 && widthMillis > 0 && |p| >= 1 && WellFormed(w, n)
    requires p[0].millis <= p[|p| - 1].millis <= e.millis
    requires UpTo(p, p[0].millis, widthMillis, BucketOf(p[0].millis, widthMillis, p[|p| - 1].millis))
    requires Counts(n, widthMillis, p, w)
    ensures Counts(n, widthMillis, p + [e], Increment(w, e.count, e.millis, widthMillis))
  {
    var events := p + [e];
    var t0 := p[0].millis;
    assert events[0].millis == t0 && events[|events| - 1] == e;
    var last := p[|p| - 1].millis;
    // the skip Java computes is exactly the distance between the two buckets
    SkipDistance(t0, widthMillis, last, e.millis);
    StepSlots(n, widthMillis, w, p, e, t0, BucketOf(t0, widthMillis, last), BucketOf(t0, widthMillis, e.millis));
  }

  /**
   * After any non-empty chronological history, slot j holds the total of
   * the calls in bucket (c - cursor + j), where c is the bucket of the last
   * call, and the current bucket starts at a whole number of widths after
   * the first call.
   */
  lemma {:induction false} ReplayCounts(n: int, widthMillis: int, events: seq<Event>)
    requires n >= 1 && widthMillis > 0 && |events| >= 1
    requires Chronological(events)
    ensures Counts(n, widthMillis, events, Replay(n, widthMillis, events))
    decreases |events|
  {
    if |events| == 1 {
      assert events == [events[0]];
      ReplayFirst(n, widthMillis, events[0]);
    } else {
      var p := events[..|events| - 1];
      var e := events[|events| - 1];
      assert events == p + [e];
      var w := Replay(n, widthMillis, p);
      assert Replay(n, widthMillis, events) == Increment(w, e.count, e.millis, widthMillis);
      ReplayCounts(n, widthMillis, p);
      PrefixUpTo(p, e, widthMillis);
      CountsStep(n, widthMillis, p, e, w);
    }
  }

  /**
   * Before the window first fills, the slots cover buckets 0 to N-1, and
   * no call lies outside buckets 0 to c: the total over [0, N) is the total
   * over the N buckets ending at c.
   */
  lemma EarlyWindow(n: int, widthMillis: int, events: seq<Event>)
    requires n >= 1 && widthMillis > 0 && |events| >= 1 && Chronological(events)
    requires BucketOf(events[0].millis, widthMillis, events[|events| - 1].millis) < n
    ensures var t0 := events[0].millis;
            var c := BucketOf(t0, widthMillis, events[|events| - 1].millis);
            CountIn(events, t0, widthMillis, 0, n) == CountIn(events, t0, widthMillis, c - n + 1, c + 1)
  {
    var t0 := events[0].millis;
    var c := BucketOf(t0, widthMillis, events[|events| - 1].millis);
    BucketsInOrder(events, widthMillis);
    CountSplit(events, t0, widthMillis, 0, c + 1, n);
    CountEmpty(events, t0, widthMillis, c + 1, n);
    CountSplit(events, t0, widthMillis, c - n + 1, 0, c + 1);
    CountEmpty(events, t0, widthMillis, c - n + 1, 0);
  }

  /** The slots add up to the calls of the N buckets ending at the last call's bucket. */
  lemma ReplayTotal(n: int, widthMillis: int, events: seq<Event>)
    requires n >= 1 && widthMillis > 0 && |events| >= 1
    requires Chronological(events)
    ensures var t0 := events[0].millis;
            var c := BucketOf(t0, widthMillis, events[|events| - 1].millis);
            Sum(Replay(n, widthMillis, events).slots) == CountIn(events, t0, widthMillis, c - n + 1, c + 1)
  {
    ReplayCounts(n, widthMillis, events);
    CountsTotal(n, widthMillis, events, Replay(n, widthMillis, events));
  }

  /** A window that counts a history correctly holds, in all, the calls of the N buckets ending at the last one. */
  lemma CountsTotal(n: int, widthMillis: int, events: seq<Event>, w: Window)
    requires n >= 1 && widthMillis > 0 && |events| >= 1
    requires Chronological(events) && WellFormed(w, n) && Counts(n, widthMillis, events, w)
    ensures var t0 := events[0].millis;
            var c := BucketOf(t0, widthMillis, events[|events| - 1].millis);
            Sum(w.slots) == CountIn(events, t0, widthMillis, c - n + 1, c + 1)
  {
    var t0 := events[0].millis;
    var c := BucketOf(t0, widthMillis, events[|events| - 1].millis);
    var base := c - w.cursor;
    SlotsSum(w.slots, events, t0, widthMillis, base);
    assert base + n == c + 1 || (base == 0 && c < n);
    if base + n != c + 1 {
      EarlyWindow(n, widthMillis, events);
    }
  }

  /** The last call's clock reading lies in the bucket the window ends on. */
  lemma ReplayClock(n: int, widthMillis: int, events: seq<Event>)
    requires n >= 1 && widthMillis > 0 && |events| >= 1
    requires Chronological(events)
    ensures var last := events[|events| - 1].millis;
            var w := Replay(n, widthMillis, events);
            w.startMillis <= last < w.startMillis + widthMillis
  {
    var t0 := events[0].millis;
    var last := events[|events| - 1].millis;
    ReplayCounts(n, widthMillis, events);
    assert Replay(n, widthMillis, events).startMillis == t0 + widthMillis * BucketOf(t0, widthMillis, last);
    BucketBounds(t0, widthMillis, last);
  }

  /**
   * The total `isLimited` compares with the rate count is the total of the
   * calls in the last call's bucket and the N-1 buckets before it; and the
   * last call's clock reading lies in the current bucket.
   */
  lemma ReplaySum(n: int, widthMillis: int, events: seq<Event>)
    requires n >= 1 && widthMillis > 0 && |events| >= 1
    requires Chronological(events)
    ensures var t0 := events[0].millis;
            var last := events[|events| - 1].millis;
            var c := BucketOf(t0, widthMillis, last);
            var w := Replay(n, widthMillis, events);
            && Sum(w.slots) == CountIn(events, t0, widthMillis, c - n + 1, c + 1)
            && w.startMillis <= last < w.startMillis + widthMillis
  {
    ReplayTotal(n, widthMillis, events);
    ReplayClock(n, widthMillis, events);
  }
  // ------------------------------------------- the read-only check (Findings)

  /**
   * As written, `isLimited(false, …)` reads the window as the last increment
   * left it: 7 calls at 0 ms on 5 buckets of 60 s are still summed at 301 s,
   * although none of them lies in the 5 buckets ending at 301 s and the
   * rotated window holds nothing.
   */
  lemma StaleReadOnlyCheck(events: seq<Event>)
    requires events == [Event(7, 0)]
    ensures Checked(Replay(5, 60000, events), false, 0, 301000, 60000) == Replay(5, 60000, events)
    ensures Sum(Checked(Replay(5, 60000, events), false, 0, 301000, 60000).slots) == 7
    ensures BucketOf(0, 60000, 301000) == 5 && CountIn(events, 0, 60000, 1, 6) == 0
    ensures Sum(Aged(Replay(5, 60000, events), 301000, 60000).slots) == 0
  {
    var w := Replay(5, 60000, events);
    assert events[..|events| - 1] == [] && events[|events| - 1] == Event(7, 0);
    assert Replay(5, 60000, []) == Initial(5);
    assert w == Increment(Initial(5), 7, 0, 60000);
    FirstIncrement(Initial(5), 7, 0, 60000);
    assert w.slots == [7] + Zeros(4);
    SumAppend([7], Zeros(4));
    SumZeros(4);
    assert [7][..0] == [];
    assert BucketOf(0, 60000, 301000) == 5;
    AgedSum(5, 60000, events, 301000);
  }

  /**
   * The corrected read-only check: after any chronological history, the
   * total read at `now`, no earlier than the last call, is the total of the
   * calls in `now`'s bucket and the N-1 buckets before it.
   */
  lemma AgedSum(n: int, widthMillis: int, events: seq<Event>, now: int)
    requires n >= 1 && widthMillis > 0 && |events| >= 1 && Chronological(events)
    requires events[|events| - 1].millis <= now
    ensures var t0 := events[0].millis;
            var c := BucketOf(t0, widthMillis, now);
            Sum(Aged(Replay(n, widthMillis, events), now, widthMillis).slots) == CountIn(events, t0, widthMillis, c - n + 1, c + 1)
  {
    var t0 := events[0].millis;
    var c := BucketOf(t0, widthMillis, now);
    var e := Event(0, now);
    var probe := events + [e];
    ChronologicalAppend(events, e);
    assert probe[..|probe| - 1] == events && probe[0] == events[0];
    assert Replay(n, widthMillis, probe) == Aged(Replay(n, widthMillis, events), now, widthMillis);
    ReplayTotal(n, widthMillis, probe);
    CountLast(events, e, t0, widthMillis, c - n + 1, c + 1);
  }

  /** A call no earlier than the last one extends a chronological history. */
  lemma ChronologicalAppend(events: seq<Event>, e: Event)
    requires |events| >= 1 && Chronological(events) && events[|events| - 1].millis <= e.millis
    ensures Chronological(events + [e])
  {
    var probe := events + [e];
    forall i, j | 0 <= i < j < |probe|
      ensures probe[i].millis <= probe[j].millis
    {
      if j == |events| && i < |events| - 1 {
        assert events[i].millis <= events[|events| - 1].millis;
      }
    }
  }
}
